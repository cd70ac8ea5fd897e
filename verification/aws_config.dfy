/** The AWS config-file reader of main.go (readAWSMasterFile): a line-by-line
    scan that keeps one profile open at a time and collects the profiles in
    file order. The file is given as its lines; opening and scanning it is
    not modelled. */
module AwsConfig {
  import opened Wrappers
  import opened GoStrings
  import opened SeqFacts

  const AccessKeyField := "aws_access_key_id"
  const SecretKeyField := "aws_secret_access_key"
  const RegionField := "region"

  /** One profile of the file (AWSMaster). Go's nil OtherProps map is the
      empty map here: both read as "no other keys". */
  datatype AWSMaster = AWSMaster(
    profile: string,
    accessKey: string,
    secretKey: string,
    region: string,
    accountID: string,
    otherProps: map<string, string>)

  /** The record a header opens, AWSMaster{Profile: name}: the name is set,
      every known key reads as Go's zero string and no other key is present. */
  function NewRecord(name: string): (r: AWSMaster)
    ensures r.profile == name && r.accountID == ""
    ensures Get(r, AccessKeyField) == Some("") && Get(r, SecretKeyField) == Some("")
    ensures Get(r, RegionField) == Some("")
    ensures WellFormed(r)
  {
    AWSMaster(name, "", "", "", "", map[])
  }

  /** A fresh record holds no key outside the three known ones. */
  lemma NewRecordHoldsOnlyKnownKeys(name: string, key: string)
    ensures Get(NewRecord(name), key) == if IsKnownKey(key) then Some("") else None
  {
  }

  predicate IsKnownKey(key: string) {
    key == AccessKeyField || key == SecretKeyField || key == RegionField
  }

  /** The value a record holds for a key of the file: each known key has its
      own field, every other key lives in otherProps or is absent. */
  function Get(c: AWSMaster, key: string): Option<string> {
    if key == AccessKeyField then Some(c.accessKey)
    else if key == SecretKeyField then Some(c.secretKey)
    else if key == RegionField then Some(c.region)
    else if key in c.otherProps then Some(c.otherProps[key])
    else None
  }

  /** A known key never lands in the catch-all map. */
  predicate WellFormed(c: AWSMaster) {
    forall k :: k in c.otherProps ==> !IsKnownKey(k)
  }

  /** The switch on the key: exactly the value stored under `key` changes. */
  function Assign(c: AWSMaster, key: string, value: string): (r: AWSMaster)
    ensures Get(r, key) == Some(value)
    ensures forall k :: k != key ==> Get(r, k) == Get(c, k)
    ensures r.profile == c.profile && r.accountID == c.accountID
    ensures WellFormed(c) ==> WellFormed(r)
  {
    if key == AccessKeyField then c.(accessKey := value)
    else if key == SecretKeyField then c.(secretKey := value)
    else if key == RegionField then c.(region := value)
    else c.(otherProps := c.otherProps[key := value])
  }

  /** A trimmed line that opens a profile: it starts with '[' and ends with ']'. */
  predicate IsHeader(line: string) {
    HasPrefix(line, "[") && HasSuffix(line, "]")
  }

  /** The profile name of a header: the text between the brackets. */
  function HeaderName(line: string): (name: string)
    requires IsHeader(line)
    ensures line == "[" + name + "]"
  {
    assert line[0] == line[..1][0] == '[';
    assert line[|line| - 1] == line[|line| - 1..][0] == ']';
    assert line == line[..1] + line[1..|line| - 1] + line[|line| - 1..];
    line[1..|line| - 1]
  }

  predicate IsHeaderLine(raw: string) {
    IsHeader(TrimSpace(raw))
  }

  function HeaderNameOf(raw: string): string
    requires IsHeaderLine(raw)
  {
    HeaderName(TrimSpace(raw))
  }

  /** The key/value pair a line carries: a line that is not a header and
      contains '=' is cut at its first '=', and both halves are trimmed. */
  function KeyValueOf(raw: string): (r: Option<(string, string)>)
    ensures r.Some? <==> !IsHeaderLine(raw) && '=' in TrimSpace(raw)
  {
    var line := TrimSpace(raw);
    if IsHeader(line) || '=' !in line then None
    else
      var parts := SplitAtFirst(line, '=');
      Some((TrimSpace(parts.0), TrimSpace(parts.1)))
  }

  /** The key is the trimmed text before the FIRST '=' of the trimmed line and
      the value the trimmed text after it, so a value may itself hold '='. */
  lemma KeyValueSplit(raw: string)
    requires KeyValueOf(raw).Some?
    ensures var line := TrimSpace(raw);
      exists i :: 0 <= i < |line| && line[i] == '=' && '=' !in line[..i]
                  && KeyValueOf(raw).value == (TrimSpace(line[..i]), TrimSpace(line[i + 1..]))
  {
    var line := TrimSpace(raw);
    var parts := SplitAtFirst(line, '=');
    var i := |parts.0|;
    assert line[i] == '=' && line[..i] == parts.0 && line[i + 1..] == parts.1;
  }

  /** The effect of a non-header line on the open record. */
  function ApplyLine(c: AWSMaster, raw: string): AWSMaster {
    match KeyValueOf(raw)
    case Some((key, value)) => Assign(c, key, value)
    case None => c
  }

  // ---------------------------------------------------------------------
  // The scan, one line at a time

  /** The variables of the scanning loop. */
  datatype ParseState = ParseState(
    credentials: seq<AWSMaster>,
    currentProfile: string,
    currentCreds: AWSMaster)

  const Start := ParseState([], "", NewRecord(""))

  /** The open record, when it has a name; a nameless one is dropped. */
  function Pending(name: string, c: AWSMaster): seq<AWSMaster> {
    if name != "" then [c] else []
  }

  /** One iteration of the loop. */
  function Step(st: ParseState, raw: string): ParseState {
    if IsHeaderLine(raw) then
      var name := HeaderNameOf(raw);
      ParseState(st.credentials + Pending(st.currentProfile, st.currentCreds), name, NewRecord(name))
    else
      st.(currentCreds := ApplyLine(st.currentCreds, raw))
  }

  /** The loop run over `lines` from state `st`. */
  function Run(st: ParseState, lines: seq<string>): ParseState
    decreases |lines|
  {
    if lines == [] then st else Run(Step(st, lines[0]), lines[1..])
  }

  /** One more iteration of the loop, seen from the rest of the lines. */
  lemma RunStep(st: ParseState, lines: seq<string>, i: nat)
    requires i < |lines|
    ensures Run(st, lines[i..]) == Run(Step(st, lines[i]), lines[i + 1..])
  {
    DropDrop(lines, i);
  }

  /** The append after the loop. */
  function Finish(st: ParseState): seq<AWSMaster> {
    st.credentials + Pending(st.currentProfile, st.currentCreds)
  }

  function ParseProfiles(lines: seq<string>): seq<AWSMaster> {
    Finish(Run(Start, lines))
  }

  /** readAWSMasterFile, over the lines of the file. */
  method ReadAWSMasterFile(lines: seq<string>) returns (credentials: seq<AWSMaster>)
    ensures credentials == ParseProfiles(lines)
    ensures credentials == Sections(lines)
  {
    credentials := [];
    var currentProfile := "";
    var currentCreds := NewRecord("");
    var i := 0;
    while i < |lines|
      invariant 0 <= i <= |lines|
      invariant Run(ParseState(credentials, currentProfile, currentCreds), lines[i..]) == Run(Start, lines)
    {
      ghost var before := ParseState(credentials, currentProfile, currentCreds);
      RunStep(before, lines, i);
      var line := TrimSpace(lines[i]);
      if IsHeader(line) {
        if currentProfile != "" {
          credentials := credentials + [currentCreds];
        }
        currentProfile := HeaderName(line);
        currentCreds := NewRecord(currentProfile);
      } else if '=' in line {
        var parts := SplitAtFirst(line, '=');
        var key := TrimSpace(parts.0);
        var value := TrimSpace(parts.1);
        assert KeyValueOf(lines[i]) == Some((key, value));
        if key == AccessKeyField {
          currentCreds := currentCreds.(accessKey := value);
        } else if key == SecretKeyField {
          currentCreds := currentCreds.(secretKey := value);
        } else if key == RegionField {
          currentCreds := currentCreds.(region := value);
        } else {
          currentCreds := currentCreds.(otherProps := currentCreds.otherProps[key := value]);
        }
        assert currentCreds == Assign(before.currentCreds, key, value);
      } else {
        assert KeyValueOf(lines[i]) == None;
      }
      assert ParseState(credentials, currentProfile, currentCreds) == Step(before, lines[i]);
      i := i + 1;
    }
    if currentProfile != "" {
      credentials := credentials + [currentCreds];
    }
    ParseIsSections(lines);
  }

  // ---------------------------------------------------------------------
  // The file read section by section: a reference definition of the scan

  /** Index of the first header line, or |lines| when there is none. */
  function FirstHeader(lines: seq<string>): (h: nat)
    ensures h <= |lines|
    ensures h < |lines| ==> IsHeaderLine(lines[h])
    ensures forall k :: 0 <= k < h ==> !IsHeaderLine(lines[k])
    decreases |lines|
  {
    if lines == [] || IsHeaderLine(lines[0]) then 0 else 1 + FirstHeader(lines[1..])
  }

  /** The record for a section: its key/value lines applied in file order. */
  function ApplyBody(c: AWSMaster, body: seq<string>): (r: AWSMaster)
    ensures r.profile == c.profile && r.accountID == c.accountID
    ensures WellFormed(c) ==> WellFormed(r)
    decreases |body|
  {
    if body == [] then c else ApplyBody(ApplyLine(c, body[0]), body[1..])
  }

  /** The profiles of the file, one section at a time: whatever comes before
      the first header is skipped, a section runs from its header to the next
      header, and a section whose name is empty yields nothing. */
  function Sections(lines: seq<string>): seq<AWSMaster>
    decreases |lines|
  {
    var h := FirstHeader(lines);
    if h == |lines| then []
    else
      var name := HeaderNameOf(lines[h]);
      var rest := lines[h + 1..];
      var e := FirstHeader(rest);
      Pending(name, ApplyBody(NewRecord(name), rest[..e])) + Sections(rest[e..])
  }

  /** Skipping the lines before the first header changes no section. */
  lemma SectionsSkip(lines: seq<string>)
    ensures Sections(lines) == Sections(lines[FirstHeader(lines)..])
  {
    var h := FirstHeader(lines);
    if h < |lines| {
      DropDrop(lines, h);
      assert FirstHeader(lines[h..]) == 0;
    }
  }

  /** The loop from any state: the records already collected, then the open
      record completed by the lines before the next header, then the
      sections of the rest. */
  lemma {:induction false} RunMatchesSections(st: ParseState, lines: seq<string>)
    ensures Finish(Run(st, lines))
         == st.credentials
            + Pending(st.currentProfile, ApplyBody(st.currentCreds, lines[..FirstHeader(lines)]))
            + Sections(lines)
    decreases |lines|
  {
    TakeAll(lines);
    if lines != [] {
      var tail := lines[1..];
      var st1 := Step(st, lines[0]);
      assert Run(st, lines) == Run(st1, tail);
      RunMatchesSections(st1, tail);
      if IsHeaderLine(lines[0]) {
        BodyAfterHeader(st, lines);
      } else {
        BodyBeforeHeader(st, lines);
      }
    }
  }

  /** A file that starts with a header: the header's section, then the rest. */
  lemma SectionsAtHeader(lines: seq<string>)
    requires lines != [] && IsHeaderLine(lines[0])
    ensures var tail := lines[1..]; var name := HeaderNameOf(lines[0]);
      Sections(lines) == Pending(name, ApplyBody(NewRecord(name), tail[..FirstHeader(tail)])) + Sections(tail)
  {
    assert FirstHeader(lines) == 0;
    SectionsSkip(lines[1..]);
  }

  /** A line before the first header belongs to no section. */
  lemma SectionsBeforeHeader(lines: seq<string>)
    requires lines != [] && !IsHeaderLine(lines[0])
    ensures Sections(lines) == Sections(lines[1..])
  {
    var tail := lines[1..];
    var h, h' := FirstHeader(lines), FirstHeader(tail);
    assert h == h' + 1;
    DropTake(lines, h);
    SectionsSkip(lines);
    SectionsSkip(tail);
  }

  /** RunMatchesSections when the first line opens a section. */
  lemma BodyAfterHeader(st: ParseState, lines: seq<string>)
    requires lines != [] && IsHeaderLine(lines[0])
    requires var tail := lines[1..]; var st1 := Step(st, lines[0]);
      Finish(Run(st1, tail))
      == st1.credentials + Pending(st1.currentProfile, ApplyBody(st1.currentCreds, tail[..FirstHeader(tail)]))
         + Sections(tail)
    ensures Finish(Run(st, lines))
         == st.credentials
            + Pending(st.currentProfile, ApplyBody(st.currentCreds, lines[..FirstHeader(lines)]))
            + Sections(lines)
  {
    var tail := lines[1..];
    var name := HeaderNameOf(lines[0]);
    var closed := Pending(st.currentProfile, st.currentCreds);
    var first := Pending(name, ApplyBody(NewRecord(name), tail[..FirstHeader(tail)]));
    SectionsAtHeader(lines);
    TakeAll(lines);
    assert FirstHeader(lines) == 0;
    assert ApplyBody(st.currentCreds, lines[..0]) == st.currentCreds;
    assert Finish(Run(st, lines)) == (st.credentials + closed) + first + Sections(tail);
    ConcatAssoc(st.credentials + closed, first, Sections(tail));
  }

  /** RunMatchesSections when the first line lies before any header. */
  lemma BodyBeforeHeader(st: ParseState, lines: seq<string>)
    requires lines != [] && !IsHeaderLine(lines[0])
    requires var tail := lines[1..]; var st1 := Step(st, lines[0]);
      Finish(Run(st1, tail))
      == st1.credentials + Pending(st1.currentProfile, ApplyBody(st1.currentCreds, tail[..FirstHeader(tail)]))
         + Sections(tail)
    ensures Finish(Run(st, lines))
         == st.credentials
            + Pending(st.currentProfile, ApplyBody(st.currentCreds, lines[..FirstHeader(lines)]))
            + Sections(lines)
  {
    var tail := lines[1..];
    var h, h' := FirstHeader(lines), FirstHeader(tail);
    assert h == h' + 1;
    assert Run(st, lines) == Run(Step(st, lines[0]), tail);
    DropTake(lines, h);
    assert ApplyBody(st.currentCreds, lines[..h])
        == ApplyBody(ApplyLine(st.currentCreds, lines[0]), tail[..h']);
    SectionsBeforeHeader(lines);
  }

  /** The scan and the section-by-section reading agree on every file. */
  lemma ParseIsSections(lines: seq<string>)
    ensures ParseProfiles(lines) == Sections(lines)
  {
    RunFromClosed(Start, lines);
    assert Start.credentials + Sections(lines) == Sections(lines);
  }

  // ---------------------------------------------------------------------
  // Which records come out, and in which order

  /** The names of the non-empty headers, in file order, duplicates kept. */
  function HeaderNames(lines: seq<string>): seq<string>
    decreases |lines|
  {
    if lines == [] then []
    else
      var first := if IsHeaderLine(lines[0]) && HeaderNameOf(lines[0]) != "" then [HeaderNameOf(lines[0])] else [];
      first + HeaderNames(lines[1..])
  }

  function ProfileNames(ps: seq<AWSMaster>): seq<string>
    decreases |ps|
  {
    if ps == [] then [] else [ps[0].profile] + ProfileNames(ps[1..])
  }

  lemma {:induction false} ProfileNamesAppend(a: seq<AWSMaster>, b: seq<AWSMaster>)
    ensures ProfileNames(a + b) == ProfileNames(a) + ProfileNames(b)
    decreases |a|
  {
    if a != [] {
      assert (a + b)[1..] == a[1..] + b;
      ProfileNamesAppend(a[1..], b);
    } else {
      assert a + b == b;
    }
  }

  /** One record per header with a non-empty name, named after it, in file
      order; a repeated name gives a repeated record. */
  lemma {:induction false} ParseProfilesNames(lines: seq<string>)
    ensures ProfileNames(ParseProfiles(lines)) == HeaderNames(lines)
    ensures |ParseProfiles(lines)| == |HeaderNames(lines)|
  {
    ParseIsSections(lines);
    SectionsNames(lines);
  }

  lemma {:induction false} SectionsNames(lines: seq<string>)
    ensures ProfileNames(Sections(lines)) == HeaderNames(lines)
    ensures |Sections(lines)| == |HeaderNames(lines)|
    decreases |lines|
  {
    if lines != [] {
      var tail := lines[1..];
      SectionsNames(tail);
      if IsHeaderLine(lines[0]) {
        var name := HeaderNameOf(lines[0]);
        var first := Pending(name, ApplyBody(NewRecord(name), tail[..FirstHeader(tail)]));
        SectionsAtHeader(lines);
        ProfileNamesAppend(first, Sections(tail));
        assert ProfileNames(first) == if name != "" then [name] else [];
      } else {
        SectionsBeforeHeader(lines);
      }
    } else {
      TakeAll(lines);
    }
  }

  /** What every returned record satisfies: a non-empty name, no account id
      (the reader never sets it) and no known key among the other keys. */
  predicate GoodRecord(r: AWSMaster) {
    r.profile != "" && r.accountID == "" && WellFormed(r)
  }

  lemma {:induction false} ParsedRecordsGood(lines: seq<string>)
    ensures forall i :: 0 <= i < |ParseProfiles(lines)| ==> GoodRecord(ParseProfiles(lines)[i])
  {
    ParseIsSections(lines);
    SectionsGood(lines);
  }

  lemma {:induction false} SectionsGood(lines: seq<string>)
    ensures forall i :: 0 <= i < |Sections(lines)| ==> GoodRecord(Sections(lines)[i])
    decreases |lines|
  {
    if lines != [] {
      var tail := lines[1..];
      SectionsGood(tail);
      if IsHeaderLine(lines[0]) {
        SectionsAtHeader(lines);
      } else {
        SectionsBeforeHeader(lines);
      }
    } else {
      TakeAll(lines);
    }
  }

  // ---------------------------------------------------------------------
  // What a section's key/value lines set

  /** The value of the last line of `body` that sets `key`, if any. */
  function LastValue(body: seq<string>, key: string): Option<string>
    decreases |body|
  {
    if body == [] then None
    else
      var later := LastValue(body[1..], key);
      if later.Some? then later
      else
        match KeyValueOf(body[0])
        case Some((k, v)) => if k == key then Some(v) else None
        case None => None
  }

  /** Applying a section's lines: a key set by some line holds the value of
      the last line that sets it, whatever earlier lines said; a key no line
      sets keeps its value. Known keys land in their fields, others in
      otherProps (see Get and Assign). */
  lemma {:induction false} ApplyBodyLastWins(c: AWSMaster, body: seq<string>, key: string)
    ensures Get(ApplyBody(c, body), key)
         == if LastValue(body, key).Some? then LastValue(body, key) else Get(c, key)
    decreases |body|
  {
    if body != [] {
      ApplyBodyLastWins(ApplyLine(c, body[0]), body[1..], key);
    }
  }

  /** A file of one named section yields exactly one record, built from the
      section's lines. */
  lemma SingleSection(header: string, body: seq<string>, key: string)
    requires IsHeaderLine(header) && HeaderNameOf(header) != ""
    requires forall k :: 0 <= k < |body| ==> !IsHeaderLine(body[k])
    ensures var name := HeaderNameOf(header);
      ParseProfiles([header] + body) == [ApplyBody(NewRecord(name), body)]
    ensures var r := ParseProfiles([header] + body)[0];
      r.profile == HeaderNameOf(header)
      && Get(r, key) == if LastValue(body, key).Some? then LastValue(body, key)
                        else Get(NewRecord(HeaderNameOf(header)), key)
  {
    var lines := [header] + body;
    assert lines[1..] == body;
    ParseIsSections(lines);
    SectionsAtHeader(lines);
    NoHeaderNoSection(body);
    TakeAll(body);
    ApplyBodyLastWins(NewRecord(HeaderNameOf(header)), body, key);
  }

  lemma NoHeaderNoSection(lines: seq<string>)
    requires forall k :: 0 <= k < |lines| ==> !IsHeaderLine(lines[k])
    ensures FirstHeader(lines) == |lines| && Sections(lines) == []
  {
  }

  // ---------------------------------------------------------------------
  // Composition, and the lines that never reach a record

  lemma {:induction false} RunAppend(st: ParseState, a: seq<string>, b: seq<string>)
    ensures Run(st, a + b) == Run(Run(st, a), b)
    decreases |a|
  {
    if a != [] {
      assert (a + b)[0] == a[0] && (a + b)[1..] == a[1..] + b;
      RunAppend(Step(st, a[0]), a[1..], b);
    } else {
      assert a + b == b;
    }
  }

  /** Two files joined where the second starts with a header: the records of
      the first, then those of the second. */
  lemma ConcatAtHeader(a: seq<string>, b: seq<string>)
    requires b != [] && IsHeaderLine(b[0])
    ensures ParseProfiles(a + b) == ParseProfiles(a) + ParseProfiles(b)
  {
    var sa := Run(Start, a);
    RunAppend(Start, a, b);
    RunMatchesSections(sa, b);
    TakeAll(b);
    assert FirstHeader(b) == 0;
    assert ApplyBody(sa.currentCreds, b[..0]) == sa.currentCreds;
    ParseIsSections(b);
  }

  /** A line that is neither a header nor holds '=' is ignored wherever it
      stands. */
  lemma NoiseLineIgnored(a: seq<string>, noise: string, b: seq<string>)
    requires !IsHeaderLine(noise) && '=' !in TrimSpace(noise)
    ensures ParseProfiles(a + [noise] + b) == ParseProfiles(a + b)
  {
    var sa := Run(Start, a);
    RunAppend(Start, a + [noise], b);
    RunAppend(Start, a, [noise]);
    RunAppend(Start, a, b);
    assert Run(sa, [noise]) == Run(Step(sa, noise), []);
    assert Step(sa, noise) == sa;
  }

  lemma {:induction false} RunWithoutHeaders(st: ParseState, lines: seq<string>)
    requires forall k :: 0 <= k < |lines| ==> !IsHeaderLine(lines[k])
    ensures Run(st, lines).credentials == st.credentials
    ensures Run(st, lines).currentProfile == st.currentProfile
    decreases |lines|
  {
    if lines != [] {
      RunWithoutHeaders(Step(st, lines[0]), lines[1..]);
    }
  }

  /** Lines before the first header reach no record. */
  lemma PreambleDropped(preamble: seq<string>, b: seq<string>)
    requires forall k :: 0 <= k < |preamble| ==> !IsHeaderLine(preamble[k])
    ensures ParseProfiles(preamble + b) == ParseProfiles(b)
  {
    var sp := Run(Start, preamble);
    RunAppend(Start, preamble, b);
    RunWithoutHeaders(Start, preamble);
    RunMatchesSections(sp, b);
    var dropped := Pending(sp.currentProfile, ApplyBody(sp.currentCreds, b[..FirstHeader(b)]));
    assert dropped == [] && sp.credentials == [];
    ParseIsSections(b);
  }

  lemma RunSnoc(st: ParseState, a: seq<string>, line: string)
    ensures Run(st, a + [line]) == Step(Run(st, a), line)
  {
    RunAppend(st, a, [line]);
    assert [line][1..] == [];
  }

  /** From a state with no open named profile, the loop adds exactly the
      sections of what follows. */
  lemma RunFromClosed(st: ParseState, rest: seq<string>)
    requires st.currentProfile == ""
    ensures Finish(Run(st, rest)) == st.credentials + Sections(rest)
  {
    RunMatchesSections(st, rest);
    var dropped := Pending(st.currentProfile, ApplyBody(st.currentCreds, rest[..FirstHeader(rest)]));
    ConcatEmpty(st.credentials, dropped, Sections(rest));
  }

  /** A header with an empty name ("[]") closes the open profile, and the
      lines up to the next header reach no record. */
  lemma EmptyHeaderDropsSection(a: seq<string>, header: string, rest: seq<string>)
    requires IsHeaderLine(header) && HeaderNameOf(header) == ""
    ensures ParseProfiles(a + [header] + rest) == ParseProfiles(a) + ParseProfiles(rest)
  {
    var sh := Step(Run(Start, a), header);
    RunAppend(Start, a + [header], rest);
    RunSnoc(Start, a, header);
    RunFromClosed(sh, rest);
    ParseIsSections(rest);
  }
}
