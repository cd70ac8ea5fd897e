/** The glue in main.go between the three pieces: the sandbox branch of
    `profile` (a selected "profile sandbox" has its freshly scraped key pair
    written under [sandbox] in the credentials file), the way `sandbox`
    turns the scraped elements into a credential, and the record `profile`
    returns. Prompts, the browser session and the environment variable are
    not modelled: the selection, the scraped element texts and the file's
    lines are parameters. */
module ProfileSync {
  import opened Wrappers
  import opened GoStrings
  import AwsConfig
  import CredentialsFile
  import ACloud

  /** The prompt entry that triggers the sandbox refresh. */
  const SandboxSelection := "profile sandbox"

  /** The credentials-file section that refresh rewrites. */
  const SandboxProfile := "sandbox"

  // ---------------------------------------------------------------------
  // The sandbox branch of profile

  /** The credentials file after the sandbox branch, given the credential it
      obtained: the key id goes in as the access key id and the access key as
      the secret access key, always under [sandbox]; any other selection
      leaves the file alone. */
  function SyncSandbox(selected: string, cred: ACloud.SandboxCredential, credLines: seq<string>): (out: seq<string>)
    ensures |out| == |credLines|
    ensures selected != SandboxSelection ==> out == credLines
  {
    if selected == SandboxSelection then
      CredentialsFile.Rewrite(credLines, SandboxProfile, cred.keyID, cred.accessKey)
    else
      credLines
  }

  /** Line by line: inside [sandbox] the access-key line carries the
      credential's KeyID and the secret-key line its AccessKey; every line
      outside [sandbox] is kept. */
  lemma SyncWritesKeyPair(selected: string, cred: ACloud.SandboxCredential, credLines: seq<string>, i: int)
    requires selected == SandboxSelection
    requires 0 <= i < |credLines|
    ensures CredentialsFile.InTarget(credLines, SandboxProfile, i)
              && HasPrefix(credLines[i], CredentialsFile.AccessKeyPrefix)
            ==> SyncSandbox(selected, cred, credLines)[i] == CredentialsFile.AccessKeyLine(cred.keyID)
    ensures CredentialsFile.InTarget(credLines, SandboxProfile, i)
              && !HasPrefix(credLines[i], CredentialsFile.AccessKeyPrefix)
              && HasPrefix(credLines[i], CredentialsFile.SecretKeyPrefix)
            ==> SyncSandbox(selected, cred, credLines)[i] == CredentialsFile.SecretKeyLine(cred.accessKey)
    ensures !CredentialsFile.InTarget(credLines, SandboxProfile, i)
            ==> SyncSandbox(selected, cred, credLines)[i] == credLines[i]
  {
    CredentialsFile.RewriteAt(credLines, SandboxProfile, cred.keyID, cred.accessKey, i);
  }

  /** Refreshing twice with the same credential leaves the file as one
      refresh does. */
  lemma SyncIdempotent(selected: string, cred: ACloud.SandboxCredential, credLines: seq<string>)
    ensures SyncSandbox(selected, cred, SyncSandbox(selected, cred, credLines))
         == SyncSandbox(selected, cred, credLines)
  {
    CredentialsFile.RewriteIdempotent(credLines, SandboxProfile, cred.keyID, cred.accessKey);
  }

  // ---------------------------------------------------------------------
  // From scraped elements to a credential

  /** What `sandbox` does with the scrape, as written: the error of the
      empty-result check is printed and dropped, and the elements (nil after
      that error) go straight to SimpleCopy, whose unguarded elems[0..4]
      panic with fewer than five. */
  datatype CopyOutcome = Copied(cred: ACloud.SandboxCredential) | IndexPanic

  function SandboxAsWritten(scraped: seq<string>): (r: CopyOutcome)
    ensures r.IndexPanic? <==> |scraped| < 5
    ensures r.Copied? ==> ACloud.KeyVals(r.cred).1 == scraped[..5]
  {
    var elems := match ACloud.Sandbox(scraped)
      case Success(e) => e
      case Failure(_) => [];
    if |elems| < 5 then IndexPanic else Copied(ACloud.SimpleCopy(elems).0)
  }

  /** Three scraped elements pass the empty-result check and then make
      SimpleCopy index past the end. */
  lemma ShortScrapePassesGuard()
    ensures ACloud.Sandbox(["user", "password", "url"]).Success?
    ensures SandboxAsWritten(["user", "password", "url"]) == IndexPanic
  {
  }

  /** Why a credential could not be obtained. */
  datatype SyncError = NoElements | TooFewElements(count: nat)

  /** The credential step with the missing guard: an empty scrape keeps the
      check's error, a scrape of one to four elements is refused, and only
      five or more are copied. */
  function AcquireCredential(scraped: seq<string>): (r: Result<ACloud.SandboxCredential, SyncError>)
    ensures r.Failure? <==> |scraped| < 5
    ensures r.Failure? ==> (r.error == NoElements <==> |scraped| == 0)
    ensures r.Success? ==> r.value.id == 0 && ACloud.KeyVals(r.value).1 == scraped[..5]
  {
    match ACloud.Sandbox(scraped)
    case Failure(_) => Failure(NoElements)
    case Success(elems) =>
      if |elems| < 5 then Failure(TooFewElements(|elems|))
      else Success(ACloud.SimpleCopy(elems).0)
  }

  /** Where the code as written does not panic, it copies what the guarded
      step copies. */
  lemma AcquireAgreesWhenComplete(scraped: seq<string>)
    ensures SandboxAsWritten(scraped).Copied? <==> AcquireCredential(scraped).Success?
    ensures AcquireCredential(scraped).Success?
            ==> SandboxAsWritten(scraped).cred == AcquireCredential(scraped).value
  {
  }

  /** The sandbox branch end to end, with the guard: the file is rewritten
      only when the scrape gave five elements, and then with the fourth as
      the access key id and the fifth as the secret access key. */
  function SyncFromScrape(selected: string, scraped: seq<string>, credLines: seq<string>): (r: Result<seq<string>, SyncError>)
    ensures r.Failure? <==> selected == SandboxSelection && |scraped| < 5
    ensures selected != SandboxSelection ==> r == Success(credLines)
    ensures selected == SandboxSelection && r.Success?
            ==> r.value == CredentialsFile.Rewrite(credLines, SandboxProfile, scraped[3], scraped[4])
  {
    if selected != SandboxSelection then Success(credLines)
    else
      match AcquireCredential(scraped)
      case Failure(e) => Failure(e)
      case Success(cred) =>
        assert ACloud.KeyVals(cred).1 == scraped[..5];
        Success(SyncSandbox(selected, cred, credLines))
  }

  // ---------------------------------------------------------------------
  // The record profile returns

  /** The record `profile` returns, as written: the selected name with the
      keys and region of the FIRST parsed profile. The unguarded
      credentials[0] needs one. */
  function ProfileAsWritten(credentials: seq<AwsConfig.AWSMaster>, selected: string): (m: AwsConfig.AWSMaster)
    requires |credentials| > 0
    ensures m.profile == selected
    ensures m.accessKey == credentials[0].accessKey && m.secretKey == credentials[0].secretKey
    ensures m.region == credentials[0].region
  {
    AwsConfig.AWSMaster(selected, credentials[0].accessKey, credentials[0].secretKey, credentials[0].region, "", map[])
  }

  /** Selecting the second of two profiles reports the first one's key. */
  lemma ProfileAsWrittenMixesProfiles()
    ensures var creds := [AwsConfig.AWSMaster("default", "KEY1", "SECRET1", "us-east-1", "", map[]),
                          AwsConfig.AWSMaster("dev", "KEY2", "SECRET2", "eu-west-1", "", map[])];
      ProfileAsWritten(creds, "dev").profile == creds[1].profile
      && ProfileAsWritten(creds, "dev").accessKey != creds[1].accessKey
  {
  }

  /** The position of the first record named `selected`, if any. */
  function FindProfile(credentials: seq<AwsConfig.AWSMaster>, selected: string): (r: Option<nat>)
    ensures r.Some? ==> r.value < |credentials| && credentials[r.value].profile == selected
    ensures r.Some? ==> forall k :: 0 <= k < r.value ==> credentials[k].profile != selected
    ensures r.None? ==> forall k :: 0 <= k < |credentials| ==> credentials[k].profile != selected
    decreases |credentials|
  {
    if credentials == [] then None
    else if credentials[0].profile == selected then Some(0)
    else
      match FindProfile(credentials[1..], selected)
      case None => None
      case Some(j) => Some(j + 1)
  }

  /** The record `profile` evidently means to return: the selected name with
      the keys and region of the (first) profile of that name. */
  function ProfileCorrected(credentials: seq<AwsConfig.AWSMaster>, selected: string): (m: Option<AwsConfig.AWSMaster>)
    ensures m.None? <==> selected !in AwsConfig.ProfileNames(credentials)
    ensures m.Some? ==> exists k :: 0 <= k < |credentials| && credentials[k].profile == selected
                          && m.value == AwsConfig.AWSMaster(selected, credentials[k].accessKey,
                                          credentials[k].secretKey, credentials[k].region, "", map[])
  {
    NamesAt(credentials);
    match FindProfile(credentials, selected)
    case None => None
    case Some(k) =>
      Some(AwsConfig.AWSMaster(selected, credentials[k].accessKey, credentials[k].secretKey, credentials[k].region, "", map[]))
  }

  /** The name list the prompt offers holds the records' names position by
      position. */
  lemma {:induction false} NamesAt(credentials: seq<AwsConfig.AWSMaster>)
    ensures |AwsConfig.ProfileNames(credentials)| == |credentials|
    ensures forall k :: 0 <= k < |credentials| ==> AwsConfig.ProfileNames(credentials)[k] == credentials[k].profile
    decreases |credentials|
  {
    if credentials != [] {
      NamesAt(credentials[1..]);
    }
  }

  /** When the selected profile is the first one, the code as written
      returns what the corrected version returns; every selection comes from
      the parsed names, so the corrected version always finds one. */
  lemma ProfileAgreesOnFirst(credentials: seq<AwsConfig.AWSMaster>)
    requires |credentials| > 0
    ensures ProfileCorrected(credentials, credentials[0].profile)
         == Some(ProfileAsWritten(credentials, credentials[0].profile))
  {
    NamesAt(credentials);
  }
}
