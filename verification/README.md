# aws_multitool: profile files and sandbox credentials, in Dafny

aws_multitool is a small Go command-line tool for switching AWS profiles. When
the "profile sandbox" entry is selected, it logs in to the A Cloud Guru
sandbox page, scrapes the sandbox's credentials, and writes the new key pair
into the `[sandbox]` section of `~/.aws/credentials`. This project models the
text-processing and record-mapping core of that tool and proves properties of
it:

- **`AwsConfig`** (`aws_config.dfy`) models `readAWSMasterFile`: one pass
  over the lines of `~/.aws/config`.
  - A trimmed `[name]` line closes the open profile and opens a new one.
  - A line with `=` is split at its first `=`. The three known keys fill
    their own fields; any other key goes to `OtherProps`.
  - The method `ReadAWSMasterFile` keeps the Go loop and its mutable
    variables. It is proved equal to a front fold (`ParseProfiles`) and to
    a section-by-section reference definition (`Sections`). All record
    properties are proved about these two definitions.
- **`CredentialsFile`** (`credentials_file.dfy`) models
  `replaceProfileCredentials`: one pass with a single `inProfile` flag.
  - The method `ReplaceProfileCredentials` keeps the loop. It is proved
    equal to `Rewrite`.
  - `Rewrite` is characterised line by line through `InTarget`, which says
    where the target section lies without using the flag.
  - Two properties are proved: the rewrite is idempotent, and a file without
    the target section is left unchanged.
- **`ACloud`** (`acloud.dfy`) models the record side of `acloud/sandbox.go`:
  - the `SandboxCredential` record;
  - `SimpleCopy`, from positional element texts to a credential;
  - `KeyVals`, the fixed key/value listing, with the round trip between the
    two;
  - the empty-result check at the end of `Sandbox`.
- **`ProfileSync`** (`profile_sync.dfy`) models the glue in `main.go`:
  - the sandbox branch of `profile`, which writes `KeyID` as the access key
    id and `AccessKey` as the secret access key under `[sandbox]`;
  - what `sandbox` does with the scraped elements;
  - the record `profile` returns.

  Both findings below live here.
- **Helper modules:**
  - `GoStrings` (`go_strings.dfy`): `strings.TrimSpace` with Go's
    `unicode.IsSpace` set, `HasPrefix`, `HasSuffix`, and `SplitN(s, "=", 2)`
    as a split at the first separator.
  - `SeqFacts` (`seq_facts.dfy`): slicing identities.
  - `Wrappers` (`wrappers.dfy`): `Option` and `Result`.

Files are handled as sequences of lines, and the scraped page elements as
the texts `MustText` would read from them. Prompts, the browser and the
environment variable are replaced by parameters.

`replaceProfileCredentials` only replaces lines that already exist. It never
appends a missing key or a missing section, and `os.CreateTemp("", …)`
creates the temporary file in the system temporary directory, not beside the
target. `CredentialsFile.NoTargetNoChange` states the first point: a file
without the target section is written back unchanged.

## Model

| member | source | states |
|---|---|---|
| AwsConfig.NewRecord | main.go:23-30 | The record a header opens (the `AWSMaster` struct with only `Profile` set, as at line 207) has that name and an empty account id. Its three known keys read as the empty string, and it holds no known key in `OtherProps`. |
| AwsConfig.NewRecordHoldsOnlyKnownKeys | main.go:207 | A freshly opened record holds no key besides the three known ones, and each of those reads as the empty string. |
| AwsConfig.ReadAWSMasterFile | main.go:179-236 | The parsing loop returns exactly the records of the fold `ParseProfiles`. It also returns the section-by-section reference `Sections`: one record per named header, built from the lines up to the next header. |
| AwsConfig.ParseIsSections | main.go:198-233 | The line-by-line scan with its pending record and the section-by-section reading give the same records, for every file. |
| AwsConfig.HeaderName | main.go:201-206 | A header line is exactly `"[" + name + "]"` for the name taken between the brackets. |
| AwsConfig.KeyValueOf | main.go:199-212 | A line yields a key/value pair exactly when its trimmed form is not a header and contains `=`. |
| AwsConfig.KeyValueSplit | main.go:208-212 | The key is the trimmed text before the first `=` and the value is the trimmed text after it, so a value may contain `=`. |
| AwsConfig.Assign | main.go:214-226 | Storing a value changes what the record holds under that key, and under no other key. The three known keys never reach `OtherProps`. The profile name is kept. |
| AwsConfig.ApplyBody | main.go:208-226 | Applying a section's lines keeps the profile name and the empty account id. It never puts a known key into `OtherProps`. |
| AwsConfig.ApplyBodyLastWins | main.go:214-226 | A key set by several lines of a section holds the value of the last of them. A key that no line sets keeps its earlier value. |
| AwsConfig.ParseProfilesNames | main.go:198-233 | There is exactly one record per header with a non-empty name. The records are in file order, each named by the text between its brackets, and a repeated name gives a repeated record. |
| AwsConfig.ParsedRecordsGood | main.go:198-233 | Every returned record has a non-empty name and an empty account id, and holds no known key in `OtherProps`. |
| AwsConfig.SingleSection | main.go:198-233 | A file made of one named header and its lines yields that one record, and each key holds its last value. |
| AwsConfig.ConcatAtHeader | main.go:201-207 | Splitting a file just before a header splits the result: the records of the whole are the records of the first part followed by those of the second. |
| AwsConfig.NoiseLineIgnored | main.go:208 | A line that is neither a header nor contains `=` changes no record. |
| AwsConfig.PreambleDropped | main.go:195-207 | Lines before the first header never reach any record. |
| AwsConfig.EmptyHeaderDropsSection | main.go:201-233 | An empty `[]` header closes the open section. The lines under it reach no record. |
| AwsConfig.NoHeaderNoSection | main.go:230-233 | A file without headers yields no record. |
| GoStrings.TrimSpaceInfix | main.go:199 | `TrimSpace` removes only white space, and only at the two ends. Its result neither starts nor ends with white space. |
| GoStrings.SplitAtFirst | main.go:210-212 | The two parts put back around the separator give the line, and the first part holds no separator. |
| CredentialsFile.ReplaceProfileCredentials | main.go:238-297 | The rewrite loop with its `inProfile` flag writes exactly the lines of `Rewrite`. |
| CredentialsFile.Rewrite | main.go:263-284 | One line is written for each line read. |
| CredentialsFile.InProfileIsInTarget | main.go:266-270 | The flag is set after a line exactly when the line lies in the target section. That section runs from a line starting `[profileName]` up to the next line starting `[`. |
| CredentialsFile.RewriteAt | main.go:266-278 | Lines outside the target section are copied. Inside it, a line starting `aws_access_key_id` becomes `aws_access_key_id = <id>`, and one starting `aws_secret_access_key` becomes `aws_secret_access_key = <secret>`. Every other line, headers included, is copied. |
| CredentialsFile.NoTargetNoChange | main.go:263-284 | If no line starts with `[profileName]`, the file is written back unchanged and nothing is appended. |
| CredentialsFile.RewriteLineIdempotent | main.go:272-278 | Rewriting an already rewritten line changes nothing. |
| CredentialsFile.RewriteIdempotent | main.go:266-278 | Rewriting twice with the same profile and keys gives the lines one rewrite gives. |
| ACloud.Field | acloud/sandbox.go:19-26 | The `SandboxCredential` fields are named exactly by the five listed keys: each listed key names a field, and no other key names one. |
| ACloud.Sandbox | acloud/sandbox.go:46-49 | The check fails with "no elements found" exactly when nothing was scraped. Otherwise it returns the elements unchanged, however few there are. |
| ACloud.SimpleCopy | acloud/sandbox.go:52-60 | The error is always nil and the ID is 0. The listed values of the result are elements 0 to 4, in order. |
| ACloud.KeyVals | acloud/sandbox.go:68-77 | The keys are always `username, password, url, keyid, accesskey`. There are five values, each the value of the field its key names, position by position. |
| ACloud.KeyValsRoundTrip | acloud/sandbox.go:52-77 | Copying a credential's listed values back gives the same credential, apart from its ID. |
| ACloud.SimpleCopyIgnoresRest | acloud/sandbox.go:52-60 | Elements after the fifth do not affect the copy. |
| ProfileSync.SyncSandbox | main.go:110-125 | The sandbox branch keeps the file's line count. Any other selection leaves the file unchanged. |
| ProfileSync.SyncWritesKeyPair | main.go:118 | Inside `[sandbox]`, the access-key line carries the credential's `KeyID` and the secret-key line its `AccessKey`. Lines outside `[sandbox]` are kept. |
| ProfileSync.SyncIdempotent | main.go:110-125 | Syncing the same credential twice gives the file one sync gives. |
| ProfileSync.SandboxAsWritten | main.go:164-176 | As written, `sandbox` panics exactly when fewer than five elements were scraped. Otherwise the credential lists elements 0 to 4. |
| ProfileSync.ShortScrapePassesGuard | main.go:165-170 | Three scraped elements pass the empty-result check, then panic in `SimpleCopy`. |
| ProfileSync.AcquireCredential | main.go:164-176 | Corrected version: with fewer than five elements it fails, and it keeps "no elements" for an empty scrape. Otherwise it yields the credential listing elements 0 to 4, with ID 0. |
| ProfileSync.AcquireAgreesWhenComplete | main.go:164-176 | The code as written and the corrected step both succeed on the same inputs, and on those inputs they give the same credential. |
| ProfileSync.SyncFromScrape | main.go:110-125 | Corrected end to end: the sandbox selection fails exactly when fewer than five elements were scraped. Otherwise `[sandbox]` gets element 3 as the access key id and element 4 as the secret key. Other selections change nothing. |
| ProfileSync.ProfileAsWritten | main.go:130-135 | As written, the returned record has the selected name but the keys and region of the first parsed profile. |
| ProfileSync.ProfileAsWrittenMixesProfiles | main.go:130-135 | Selecting the second of two profiles returns the first profile's access key. |
| ProfileSync.FindProfile | main.go:94-104 | Finds the first record with the selected name. It finds none exactly when no record has that name. |
| ProfileSync.ProfileCorrected | main.go:130-135 | Corrected version: the returned record has the selected name with the keys and region of a profile of that name. It is absent exactly when that name is not among the names offered. |
| ProfileSync.NamesAt | main.go:94-97 | The prompt's name list holds each record's name, position by position. |
| ProfileSync.ProfileAgreesOnFirst | main.go:130-135 | When the first profile is the one selected, the code as written and the corrected version return the same record. |

## Left out

- File-system plumbing, which is operating-system I/O: `os.UserHomeDir`, `os.Open`, `os.CreateTemp`, `os.Rename` and the deferred closes (main.go:182-192, 239-258, 286-296).
  - The files are given and produced as sequences of lines.
  - The I/O error returns, including `scanner.Err()`, are not modelled.
- `bufio.Scanner` details (the token-size limit and line splitting, including the `\r` strip): the input is already split into lines.
- The newline that `fmt.Fprintln` adds to each written line: the output is a sequence of lines.
- Browser automation, which depends on an external library and on concurrent polling: the rod race in `Sandbox` with its handlers, clicks, waits and screenshot, plus `Scrape`, `ConnectBrowser`, `core.Login`, `awsConsole` and `getAwsConsoleUrl`.
  - The scraped elements are a parameter, one text per element.
  - A `MustText` panic is not modelled.
- `ACloudLogin` and the login error path at the start of `sandbox` (main.go:139-160): these are environment and network I/O.
- Interactive and process I/O, replaced by parameters:
  - `main`, `promptSwitch` and the promptui calls in `profile`;
  - `os.Setenv("AWS_PROFILE", …)`;
  - the success and error messages;
  - `ZeroLog`.
- `DisplayCreds` and `cli/terminal.go`: console output only.
- `acloud/login.go`: it reads `.env` files and the process environment, which is I/O outside this model.
- `main_test.go`: it exercises SQLite-backed `setCreds` and `retrieveCredentials`, which are not part of this model.
- Go's nil `OtherProps` map is the empty map, which reads the same.
- `SandboxCredential.ID` is an `int64` in the source. Here it is an unbounded `int`, and it is only ever 0.
- ProfileSync.ProfileAsWritten: requires at least one parsed profile. With an empty list, the unguarded `credentials[0]` at main.go:132 would panic, and that panic is not modelled as an outcome (unlike `SandboxAsWritten`, which models its panic).
- ProfileSync.FindProfile: when several records share the selected name, the corrected record uses the first. The source never looks the name up: `prompt.Run` also returns the selected index, which main.go:104 discards as `_`, and with duplicate names that index, not the first match, would pick the exact record.

## Findings

| source | as written | input that shows it | evidently intended | confidence | as-written member | corrected member |
|---|---|---|---|---|---|---|
| main.go:164-171 with acloud/sandbox.go:46-58 | `sandbox` prints and drops the error of `acloud.Sandbox`, then passes its elements to `SimpleCopy`, which indexes `elems[0]` to `elems[4]` without a check. An empty scrape (nil elements) or a scrape of one to four elements passes the empty-result check, or has its error ignored, and then panics. | a scrape of three elements, e.g. `["user", "password", "url"]` | fail with an error unless at least five elements were scraped, and copy elements 0 to 4 otherwise | high, not executed | ProfileSync.SandboxAsWritten, ProfileSync.ShortScrapePassesGuard | ProfileSync.AcquireCredential, ProfileSync.SyncFromScrape |
| main.go:130-135 | `profile` returns the selected name paired with `credentials[0]`'s access key, secret key and region, whatever profile was selected | profiles `default` (key `KEY1`) and `dev` (key `KEY2`), with `dev` selected: the result says `dev` with `KEY1` | the keys and region of the selected profile | medium, not executed (the caller in `main` discards the returned record) | ProfileSync.ProfileAsWritten, ProfileSync.ProfileAsWrittenMixesProfiles | ProfileSync.ProfileCorrected |
