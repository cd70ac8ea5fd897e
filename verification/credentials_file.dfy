/** The credentials-file rewrite of main.go (replaceProfileCredentials): one
    pass over the lines with a single flag telling whether the target
    profile's section is open. Inside that section the access-key and
    secret-key lines are replaced; every other line is copied. The file is
    given and produced as its lines; the temporary file and the rename are
    not modelled. */
module CredentialsFile {
  import opened GoStrings
  import opened SeqFacts

  const AccessKeyPrefix := "aws_access_key_id"
  const SecretKeyPrefix := "aws_secret_access_key"

  /** The line written for the new access key id. */
  function AccessKeyLine(id: string): string {
    AccessKeyPrefix + " = " + id
  }

  /** The line written for the new secret access key. */
  function SecretKeyLine(secret: string): string {
    SecretKeyPrefix + " = " + secret
  }

  /** A raw line that opens the target section: it starts with "[name]". */
  predicate OpensTarget(line: string, profileName: string) {
    HasPrefix(line, "[" + profileName + "]")
  }

  /** A raw line that opens some section: it starts with '['. */
  predicate OpensSection(line: string) {
    HasPrefix(line, "[")
  }

  /** The flag after reading one more line. */
  function Track(inProfile: bool, line: string, profileName: string): bool {
    if OpensTarget(line, profileName) then true
    else if inProfile && OpensSection(line) then false
    else inProfile
  }

  /** The flag after reading all of `lines`. */
  function InProfile(lines: seq<string>, profileName: string): bool
    decreases |lines|
  {
    if lines == [] then false
    else Track(InProfile(lines[..|lines| - 1], profileName), lines[|lines| - 1], profileName)
  }

  /** The line written for `line`, given the flag after reading it. */
  function RewriteLine(inProfile: bool, line: string, id: string, secret: string): string {
    if inProfile && HasPrefix(line, AccessKeyPrefix) then AccessKeyLine(id)
    else if inProfile && HasPrefix(line, SecretKeyPrefix) then SecretKeyLine(secret)
    else line
  }

  /** The lines written for `lines`, one for one. */
  function Rewrite(lines: seq<string>, profileName: string, id: string, secret: string): (out: seq<string>)
    ensures |out| == |lines|
    decreases |lines|
  {
    if lines == [] then []
    else
      Rewrite(lines[..|lines| - 1], profileName, id, secret)
      + [RewriteLine(InProfile(lines, profileName), lines[|lines| - 1], id, secret)]
  }

  /** replaceProfileCredentials, over the lines of the file. */
  method ReplaceProfileCredentials(lines: seq<string>, profileName: string, awsAccessKeyID: string, awsSecretAccessKey: string)
    returns (out: seq<string>)
    ensures out == Rewrite(lines, profileName, awsAccessKeyID, awsSecretAccessKey)
  {
    out := [];
    var inProfile := false;
    var i := 0;
    while i < |lines|
      invariant 0 <= i <= |lines|
      invariant inProfile == InProfile(lines[..i], profileName)
      invariant out == Rewrite(lines[..i], profileName, awsAccessKeyID, awsSecretAccessKey)
    {
      var line := lines[i];
      if HasPrefix(line, "[" + profileName + "]") {
        inProfile := true;
      } else if inProfile && HasPrefix(line, "[") {
        inProfile := false;
      }
      if inProfile {
        if HasPrefix(line, AccessKeyPrefix) {
          line := AccessKeyLine(awsAccessKeyID);
        } else if HasPrefix(line, SecretKeyPrefix) {
          line := SecretKeyLine(awsSecretAccessKey);
        }
      }
      TakeSnoc(lines, i);
      out := out + [line];
      i := i + 1;
    }
    TakeAll(lines);
  }

  // ---------------------------------------------------------------------
  // The target section, stated without the flag

  /** Line `i` lies in the target section: some line at or before it opens
      the target section, and no line after that one, up to `i`, opens a
      section. */
  ghost predicate InTarget(lines: seq<string>, profileName: string, i: int)
    requires 0 <= i < |lines|
  {
    exists j :: 0 <= j <= i && OpensTarget(lines[j], profileName)
                && forall k :: j < k <= i ==> !OpensSection(lines[k])
  }

  lemma TargetOpensSection(line: string, profileName: string)
    ensures OpensTarget(line, profileName) ==> OpensSection(line)
  {
    if OpensTarget(line, profileName) {
      assert line[..1] == line[..|"[" + profileName + "]"|][..1];
    }
  }

  /** The flag after line `i` is set exactly when line `i` lies in the
      target section. */
  lemma {:induction false} InProfileIsInTarget(lines: seq<string>, profileName: string, i: int)
    requires 0 <= i < |lines|
    ensures InProfile(lines[..i + 1], profileName) == InTarget(lines, profileName, i)
    decreases i
  {
    TakeSnoc(lines, i);
    TargetOpensSection(lines[i], profileName);
    if OpensTarget(lines[i], profileName) {
      assert InTarget(lines, profileName, i);
    } else if OpensSection(lines[i]) {
      assert !InTarget(lines, profileName, i);
    } else if i == 0 {
      assert !InTarget(lines, profileName, i);
    } else {
      InProfileIsInTarget(lines, profileName, i - 1);
      if InTarget(lines, profileName, i - 1) {
        var j :| 0 <= j <= i - 1 && OpensTarget(lines[j], profileName)
                 && forall k :: j < k <= i - 1 ==> !OpensSection(lines[k]);
        assert forall k :: j < k <= i ==> !OpensSection(lines[k]);
      }
      if InTarget(lines, profileName, i) {
        var j :| 0 <= j <= i && OpensTarget(lines[j], profileName)
                 && forall k :: j < k <= i ==> !OpensSection(lines[k]);
        assert j <= i - 1;
      }
    }
  }

  /** Rewriting a prefix gives the prefix of the rewrite. */
  lemma {:induction false} RewritePrefix(lines: seq<string>, n: nat, profileName: string, id: string, secret: string)
    requires n <= |lines|
    ensures Rewrite(lines, profileName, id, secret)[..n] == Rewrite(lines[..n], profileName, id, secret)
    decreases |lines| - n
  {
    if n < |lines| {
      RewritePrefix(lines, n + 1, profileName, id, secret);
      TakeSnoc(lines, n);
      var out := Rewrite(lines[..n + 1], profileName, id, secret);
      assert out[..n] == Rewrite(lines[..n], profileName, id, secret);
    } else {
      TakeAll(lines);
    }
  }

  /** Each written line, stated by where it lies: outside the target section
      a line is copied; inside it, a line starting "aws_access_key_id"
      becomes "aws_access_key_id = <id>", one starting
      "aws_secret_access_key" becomes "aws_secret_access_key = <secret>",
      and any other line, the section's header included, is copied. */
  lemma RewriteAt(lines: seq<string>, profileName: string, id: string, secret: string, i: int)
    requires 0 <= i < |lines|
    ensures !InTarget(lines, profileName, i)
            ==> Rewrite(lines, profileName, id, secret)[i] == lines[i]
    ensures InTarget(lines, profileName, i) && HasPrefix(lines[i], AccessKeyPrefix)
            ==> Rewrite(lines, profileName, id, secret)[i] == AccessKeyLine(id)
    ensures InTarget(lines, profileName, i) && !HasPrefix(lines[i], AccessKeyPrefix)
              && HasPrefix(lines[i], SecretKeyPrefix)
            ==> Rewrite(lines, profileName, id, secret)[i] == SecretKeyLine(secret)
    ensures InTarget(lines, profileName, i) && !HasPrefix(lines[i], AccessKeyPrefix)
              && !HasPrefix(lines[i], SecretKeyPrefix)
            ==> Rewrite(lines, profileName, id, secret)[i] == lines[i]
  {
    RewritePrefix(lines, i + 1, profileName, id, secret);
    InProfileIsInTarget(lines, profileName, i);
    TakeSnoc(lines, i);
    var out := Rewrite(lines, profileName, id, secret);
    assert out[i] == out[..i + 1][i];
  }

  /** A file in which no line starts with "[name]" is written back unchanged;
      in particular no section and no key is ever added. */
  lemma NoTargetNoChange(lines: seq<string>, profileName: string, id: string, secret: string)
    requires forall k :: 0 <= k < |lines| ==> !OpensTarget(lines[k], profileName)
    ensures Rewrite(lines, profileName, id, secret) == lines
  {
    var out := Rewrite(lines, profileName, id, secret);
    forall i | 0 <= i < |lines| ensures out[i] == lines[i] {
      RewriteAt(lines, profileName, id, secret, i);
    }
  }

  // ---------------------------------------------------------------------
  // Idempotence

  /** A written line opens the same sections as the line it replaces. */
  lemma RewriteLineShape(inProfile: bool, line: string, id: string, secret: string, profileName: string)
    ensures var w := RewriteLine(inProfile, line, id, secret);
      (OpensSection(w) <==> OpensSection(line))
      && (OpensTarget(w, profileName) <==> OpensTarget(line, profileName))
  {
    var w := RewriteLine(inProfile, line, id, secret);
    TargetOpensSection(w, profileName);
    TargetOpensSection(line, profileName);
    if w != line {
      assert w[0] == 'a' && line[0] == 'a';
    }
  }

  /** Rewriting a written line changes nothing. */
  lemma RewriteLineIdempotent(inProfile: bool, line: string, id: string, secret: string)
    ensures var w := RewriteLine(inProfile, line, id, secret);
      RewriteLine(inProfile, w, id, secret) == w
  {
    var a := AccessKeyLine(id);
    var s := SecretKeyLine(secret);
    assert a[..|AccessKeyPrefix|] == AccessKeyPrefix;
    assert s[..|SecretKeyPrefix|] == SecretKeyPrefix;
    assert s[4] != AccessKeyPrefix[4];
  }

  /** The flag reads the written file exactly as it read the original. */
  lemma {:induction false} InProfileOfRewrite(lines: seq<string>, profileName: string, id: string, secret: string)
    ensures InProfile(Rewrite(lines, profileName, id, secret), profileName) == InProfile(lines, profileName)
    decreases |lines|
  {
    if lines != [] {
      var n := |lines| - 1;
      var out := Rewrite(lines, profileName, id, secret);
      var before := Rewrite(lines[..n], profileName, id, secret);
      InProfileOfRewrite(lines[..n], profileName, id, secret);
      assert out[..n] == before;
      RewriteLineShape(InProfile(lines, profileName), lines[n], id, secret, profileName);
    }
  }

  /** Rewriting twice with the same profile and keys gives the lines that
      rewriting once gives. */
  lemma {:induction false} RewriteIdempotent(lines: seq<string>, profileName: string, id: string, secret: string)
    ensures Rewrite(Rewrite(lines, profileName, id, secret), profileName, id, secret)
         == Rewrite(lines, profileName, id, secret)
    decreases |lines|
  {
    if lines != [] {
      var n := |lines| - 1;
      var out := Rewrite(lines, profileName, id, secret);
      var before := Rewrite(lines[..n], profileName, id, secret);
      RewriteIdempotent(lines[..n], profileName, id, secret);
      assert out[..n] == before;
      InProfileOfRewrite(lines, profileName, id, secret);
      RewriteLineIdempotent(InProfile(lines, profileName), lines[n], id, secret);
    }
  }
}
