/** The seed-user configuration of scripts/default-users-config.ts: the `DEFAULT_USERS` table
    and the check that the required environment variables are set. */
module DefaultUsers {

  /** `userMetadata`: the display name and the other fields, as key/value pairs. */
  datatype UserMetadata = UserMetadata(displayName: string, extra: seq<(string, string)>)

  /** `profileData`, with the fields every default user sets. */
  datatype ProfileData = ProfileData(
    email: string,
    anonymous: bool,
    displayName: string,
    premium: bool,
    messageCount: nat,
    dailyMessageCount: nat,
    dailyProMessageCount: nat,
    favoriteModels: seq<string>,
    systemPrompt: string)

  datatype DefaultUser = DefaultUser(email: string, password: string, userMetadata: UserMetadata, profileData: ProfileData)

  const AdminUser: DefaultUser := DefaultUser(
    "admin@rainscale.com", "admin123",
    UserMetadata("Admin User", [("role", "admin"), ("department", "Administration")]),
    ProfileData("admin@rainscale.com", false, "Admin User", true, 0, 0, 0,
      ["claude-3-5-sonnet-20241022", "gpt-4o"],
      "You are a helpful medical AI assistant with administrative privileges."))

  const DoctorUser: DefaultUser := DefaultUser(
    "doctor@rainscale.com", "doctor123",
    UserMetadata("Dr. John Smith", [("role", "doctor"), ("specialization", "General Medicine"), ("license_number", "MD-2024-001")]),
    ProfileData("doctor@rainscale.com", false, "Dr. John Smith", true, 0, 0, 0,
      ["claude-3-5-sonnet-20241022", "gpt-4o-mini"],
      "You are a medical AI assistant. Provide accurate medical information while reminding users to consult healthcare professionals."))

  const NurseUser: DefaultUser := DefaultUser(
    "nurse@rainscale.com", "nurse123",
    UserMetadata("Sarah Johnson", [("role", "nurse"), ("department", "Emergency")]),
    ProfileData("nurse@rainscale.com", false, "Sarah Johnson", false, 0, 0, 0,
      ["gpt-4o-mini", "gemma2:2b"],
      "You are a helpful AI assistant for healthcare professionals."))

  const TestUser: DefaultUser := DefaultUser(
    "user@rainscale.com", "user123",
    UserMetadata("Test User", [("role", "user")]),
    ProfileData("user@rainscale.com", false, "Test User", false, 0, 0, 0,
      ["gpt-4o-mini"],
      "You are an expert and experienced from the healthcare and biomedical domain with extensive medical knowledge and practical experience. Your name is Rainscales Assistant, and you were developed by Rainscales Healthcare AI who's willing to help answer the user's query with explanation. In your explanation, leverage your deep medical expertise such as relevant anatomical structures, physiological processes, diagnostic criteria, treatment guidelines, or other pertinent medical concepts. Use precise medical terminology while still aiming to make the explanation clear and accessible to a general audience."))

  /** `DEFAULT_USERS`. */
  const DefaultUserTable: seq<DefaultUser> := [AdminUser, DoctorUser, NurseUser, TestUser]

  /** The profile row is created under the login e-mail. */
  lemma ProfileEmailIsLoginEmail()
    ensures forall u :: u in DefaultUserTable ==> u.profileData.email == u.email
  {
  }

  /** The auth metadata and the profile agree on the display name. */
  lemma DisplayNamesAgree()
    ensures forall u :: u in DefaultUserTable ==> u.userMetadata.displayName == u.profileData.displayName
  {
  }

  /** No two default users share an e-mail, so creating them cannot collide. */
  lemma EmailsDistinct()
    ensures forall i, j :: 0 <= i < j < |DefaultUserTable| ==> DefaultUserTable[i].email != DefaultUserTable[j].email
  {
  }

  /** `REQUIRED_ENV_VARS`. */
  const RequiredEnvVars: seq<string> := ["NEXT_PUBLIC_SUPABASE_URL", "SUPABASE_SERVICE_ROLE"]

  /** A variable `!process.env[v]` calls missing: unset or empty. */
  predicate Unset(env: map<string, string>, v: string)
  {
    v !in env || env[v] == ""
  }

  /** `a` is `b` with some elements left out, the rest in their order. */
  predicate IsSubsequence(a: seq<string>, b: seq<string>)
    decreases |b|
  {
    if a == [] then true
    else if b == [] then false
    else if a[0] == b[0] then IsSubsequence(a[1..], b[1..])
    else IsSubsequence(a, b[1..])
  }

  /** `vars.filter(envVar => !process.env[envVar])`. */
  function MissingVars(vars: seq<string>, env: map<string, string>): (missing: seq<string>)
    ensures forall v :: v in missing <==> v in vars && Unset(env, v)
    ensures IsSubsequence(missing, vars)
    ensures |missing| <= |vars|
  {
    if vars == [] then []
    else
      var rest := MissingVars(vars[1..], env);
      assert forall v :: v in vars <==> v == vars[0] || v in vars[1..];
      if Unset(env, vars[0]) then [vars[0]] + rest
      else
        assert rest != [] ==> rest[0] in rest && rest[0] != vars[0];
        rest
  }

  datatype Validation = Validation(valid: bool, missing: seq<string>)

  /** `validateEnvironment`, with `process.env` as a parameter. */
  function ValidateEnvironment(env: map<string, string>): (r: Validation)
    ensures r.valid <==> r.missing == []
    ensures forall v :: v in r.missing <==> v in RequiredEnvVars && Unset(env, v)
    ensures IsSubsequence(r.missing, RequiredEnvVars)
  {
    var missing := MissingVars(RequiredEnvVars, env);
    Validation(|missing| == 0, missing)
  }

  /** The environment is valid exactly when both variables are set to non-empty values. */
  lemma ValidIffBothSet(env: map<string, string>)
    ensures ValidateEnvironment(env).valid <==>
              "NEXT_PUBLIC_SUPABASE_URL" in env && env["NEXT_PUBLIC_SUPABASE_URL"] != ""
              && "SUPABASE_SERVICE_ROLE" in env && env["SUPABASE_SERVICE_ROLE"] != ""
  {
    var r := ValidateEnvironment(env);
    assert "NEXT_PUBLIC_SUPABASE_URL" in RequiredEnvVars && "SUPABASE_SERVICE_ROLE" in RequiredEnvVars;
    if !r.valid {
      assert r.missing[0] in r.missing;
    }
  }
}
