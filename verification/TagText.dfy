/** The text of a timestamp tag: what `create_timestamp_tag` writes, what a signer may append to it, and how
    it is stripped of the signature, parsed into keys and values, and validated again. Reading a written tag gives
    back every fact in it, and two tags are the same exactly if these facts are. */
module TagText {
  import opened Wire

  /** What ends a line for `str.splitlines`. */
  predicate IsBreak(c: char) {
    c in ['\n', '\r', '\U{0B}', '\U{0C}', '\U{1C}', '\U{1D}', '\U{1E}', '\U{85}', '\U{2028}', '\U{2029}']
  }

  /** What `str.strip` and `str.split` take for white space. */
  predicate IsSpace(c: char) {
    IsBreak(c) || c in [' ', '\t', '\U{1F}', '\U{A0}', '\U{1680}', '\U{202F}', '\U{205F}', '\U{3000}']
    || '\U{2000}' <= c <= '\U{200A}'
  }

  // ----- pieces of strings -----

  /** The index of the first character of this kind, or the length. */
  function Find(s: string, kind: char -> bool): (n: nat)
    ensures n <= |s| && (n < |s| ==> kind(s[n])) && forall i :: 0 <= i < n ==> !kind(s[i])
  {
    if s == [] || kind(s[0]) then 0 else 1 + Find(s[1..], kind)
  }

  function TrimLeft(s: string): (r: string)
    ensures |r| <= |s| && r == s[|s| - |r|..] && (r != [] ==> !IsSpace(r[0]))
  {
    if s != [] && IsSpace(s[0]) then TrimLeft(s[1..]) else s
  }

  function TrimRight(s: string): (r: string)
    ensures r <= s && (r != [] ==> !IsSpace(r[|r| - 1]))
  {
    if s != [] && IsSpace(s[|s| - 1]) then TrimRight(s[..|s| - 1]) else s
  }

  function Trim(s: string): string {
    TrimRight(TrimLeft(s))
  }

  /** The pieces between separators. */
  function Split(s: string, kind: char -> bool): (r: seq<string>)
    ensures r != []
    decreases |s|
  {
    var n := Find(s, kind);
    if n == |s| then [s] else [s[..n]] + Split(s[n + 1..], kind)
  }

  lemma FindAppend(a: string, c: char, b: string, kind: char -> bool)
    requires kind(c) && forall i :: 0 <= i < |a| ==> !kind(a[i])
    ensures Find(a + [c] + b, kind) == |a|
  {
    var s := a + [c] + b;
    assert s[|a|] == c;
    assert forall i :: 0 <= i < |a| ==> s[i] == a[i];
  }

  lemma SplitFirst(a: string, c: char, b: string, kind: char -> bool)
    requires kind(c) && forall i :: 0 <= i < |a| ==> !kind(a[i])
    ensures Split(a + [c] + b, kind) == [a] + Split(b, kind)
  {
    FindAppend(a, c, b, kind);
    var s := a + [c] + b;
    assert s[..|a|] == a && s[|a| + 1..] == b;
  }

  // ----- signature blocks -----

  predicate IsArmorChar(c: char) {
    'A' <= c <= 'Z' || '0' <= c <= '9' || c == ' '
  }

  /** A line `-----BEGIN X-----`. */
  predicate IsArmor(line: string) {
    && |line| >= 17 && line[..11] == "-----BEGIN " && line[|line| - 5..] == "-----"
    && line[11] != ' ' && forall i :: 11 <= i < |line| - 5 ==> IsArmorChar(line[i])
  }

  predicate IsNewline(c: char) {
    c == '\n'
  }

  /** The body up to its first armor line. */
  function Stripped(body: string): (r: string)
    ensures r <= body
    decreases |body|
  {
    var n := Find(body, IsNewline);
    if IsArmor(body[..n]) then ""
    else if n == |body| then body
    else
      var r := Stripped(body[n + 1..]);
      assert body == body[..n + 1] + body[n + 1..];
      body[..n + 1] + r
  }

  lemma StripNext(rest: string)
    ensures var n := Find(rest, IsNewline);
            && Split(rest, IsNewline)[0] == rest[..n]
            && (IsArmor(rest[..n]) ==> Stripped(rest) == "")
            && (!IsArmor(rest[..n]) && n == |rest| ==> Stripped(rest) == rest && |Split(rest, IsNewline)| == 1)
            && (!IsArmor(rest[..n]) && n < |rest| ==>
                  Stripped(rest) == rest[..n + 1] + Stripped(rest[n + 1..])
                  && Split(rest, IsNewline)[1..] == Split(rest[n + 1..], IsNewline))
  {
    hide IsArmor, IsNewline, Find;
    assert rest[..|rest|] == rest;
  }

  /** `done` has no armor line, and what is to be stripped is in the rest. */
  ghost predicate Kept(body: string, done: string, rest: string) {
    body == done + rest && Stripped(body) == done + Stripped(rest)
  }

  lemma Associate(a: string, b: string, c: string)
    ensures a + b + c == a + (b + c)
  {
  }

  lemma Cut(s: string, n: nat)
    requires n <= |s|
    ensures s == s[..n] + s[n..]
  {
  }

  lemma KeepLine(body: string, done: string, rest: string, n: nat)
    requires Kept(body, done, rest) && n < |rest| && Stripped(rest) == rest[..n + 1] + Stripped(rest[n + 1..])
    ensures Kept(body, done + rest[..n + 1], rest[n + 1..])
  {
    hide Stripped;
    Cut(rest, n + 1);
    Associate(done, rest[..n + 1], rest[n + 1..]);
    Associate(done, rest[..n + 1], Stripped(rest[n + 1..]));
  }

  lemma KeepEnd(body: string, done: string, rest: string)
    requires Kept(body, done, rest)
    ensures Stripped(rest) == "" ==> Stripped(body) == body[..|done|]
    ensures Stripped(rest) == rest ==> Stripped(body) == body
  {
    assert done + "" == done;
  }

  method StripSignatureBlock(body: string) returns (r: string)
    ensures r == Stripped(body)
  {
    hide IsArmor, IsNewline, Find, Split, Stripped, Kept;
    var offset := 0;
    var lines := Split(body, IsNewline);
    ghost var done, rest := "", body;
    KeepAll(body);
    for k := 0 to |lines|
      invariant offset <= |body| ==> lines[k..] == Split(rest, IsNewline) && |done| == offset && |done| + |rest| == |body|
      invariant offset <= |body| ==> Kept(body, done, rest)
      invariant offset > |body| ==> k == |lines| && Stripped(body) == body
    {
      StripNext(rest);
      KeepEnd(body, done, rest);
      var line := lines[k];
      assert line == lines[k..][0] && lines[k..][1..] == lines[k + 1..];
      if IsArmor(line) {
        return body[..offset];
      }
      ghost var n := Find(rest, IsNewline);
      if n < |rest| {
        KeepLine(body, done, rest, n);
        done, rest := done + rest[..n + 1], rest[n + 1..];
      }
      offset := offset + |line| + 1;
    }
    return body;
  }

  lemma KeepAll(body: string)
    ensures Kept(body, "", body)
  {
  }

  // ----- annotations -----

  predicate IsColon(c: char) {
    c == ':'
  }

  type Pair = (string, string)

  /** One line, if it has a key before its first colon. */
  function ParseLine(line: string): seq<Pair> {
    var n := Find(line, IsColon);
    if n == |line| || Trim(line[..n]) == "" then [] else [(Trim(line[..n]), Trim(line[n + 1..]))]
  }

  function ParseLines(lines: seq<string>): seq<Pair> {
    if lines == [] then [] else ParseLine(lines[0]) + ParseLines(lines[1..])
  }

  /** `_parse_tag_annotation`. An empty line parses to nothing, so breaking a carriage return and a line feed
      apart changes nothing. */
  function Parsed(contents: string): seq<Pair> {
    ParseLines(Split(contents, IsBreak))
  }

  lemma ParseNext(lines: seq<string>, k: nat)
    requires k < |lines|
    ensures ParseLines(lines[k..]) == ParseLine(lines[k]) + ParseLines(lines[k + 1..])
  {
    assert lines[k..][0] == lines[k] && lines[k..][1..] == lines[k + 1..];
  }

  method ParseTagAnnotation(contents: string) returns (pairs: seq<Pair>)
    ensures pairs == Parsed(contents)
  {
    hide Trim, Find, Split, IsColon, IsBreak, ParseLines;
    pairs := [];
    var lines := Split(contents, IsBreak);
    assert lines[0..] == lines;
    for k := 0 to |lines|
      invariant pairs + ParseLines(lines[k..]) == Parsed(contents)
    {
      var line := lines[k];
      ParseNext(lines, k);
      var colon := Find(line, IsColon);
      if colon == |line| {
        continue;
      }
      var key := Trim(line[..colon]);
      if key == "" {
        continue;
      }
      pairs := pairs + [(key, Trim(line[colon + 1..]))];
    }
    NoLines(lines);
  }

  lemma NoLines(lines: seq<string>)
    ensures ParseLines(lines[|lines|..]) == []
  {
  }

  // ----- what a tag says -----

  const EVERY_COMMIT := "every_commit"
  const FIXED_TIME := "fixed_time"
  const MAX_AGE := "max_age"

  const SCHEMA := "git-ots schema"
  const PRODUCER := "producer"
  const SOURCE := "source"
  const SUBMITTED_AT := "submitted-at"
  const PROOF := "proof"
  const TRIGGERS := "triggers"

  /** The facts of a timestamp tag, as `create_timestamp_tag` is given them. `producer` is the program and its
      version. */
  datatype Fields = Fields(producer: string, source: string, submittedAt: int, directory: string, triggers: set<string>)

  /** Reading an integer, and writing and reading an RFC 3339 time, are other code's. */
  datatype Codec = Codec(readInt: string -> Option<int>, showTime: int -> string, readTime: string -> Option<int>)

  predicate IsLowerHex(c: char) {
    '0' <= c <= '9' || 'a' <= c <= 'f'
  }

  /** Nothing that would break the line, and no white space at either end. */
  predicate OneLine(s: string) {
    (forall i :: 0 <= i < |s| ==> !IsBreak(s[i])) && (s != [] ==> !IsSpace(s[0]) && !IsSpace(s[|s| - 1]))
  }

  predicate IsSource(s: string) {
    (|s| == 40 || |s| == 64) && forall i :: 0 <= i < |s| ==> IsLowerHex(s[i])
  }

  /** The time is written on one line in the `Z` form, and its `+00:00` form reads back. */
  predicate Inverts(codec: Codec, t: int) {
    var s := codec.showTime(t);
    OneLine(s) && s != [] && s[|s| - 1] == 'Z' && codec.readTime(s[..|s| - 1] + "+00:00") == Some(t)
  }

  ghost predicate ValidCodec(codec: Codec) {
    codec.readInt("2") == Some(2) && forall t: int {:trigger Inverts(codec, t)} :: Inverts(codec, t)
  }

  predicate ValidFields(f: Fields) {
    && f.producer != "" && OneLine(f.producer) && IsSource(f.source) && f.directory != "" && OneLine(f.directory)
    && f.triggers != {} && f.triggers <= {EVERY_COMMIT, FIXED_TIME, MAX_AGE}
  }

  /** The triggers in alphabetical order, a space between. */
  function TriggerText(triggers: set<string>): string {
    var rest := if MAX_AGE in triggers then MAX_AGE else "";
    var later := if FIXED_TIME !in triggers then rest else if rest == "" then FIXED_TIME else FIXED_TIME + " " + rest;
    if EVERY_COMMIT !in triggers then later else if later == "" then EVERY_COMMIT else EVERY_COMMIT + " " + later
  }

  function ProofPath(f: Fields): string {
    f.directory + "/" + f.source + ".ots"
  }

  function Line(key: string, value: string): string {
    key + ":" + " " + value
  }

  /** The lines of the annotation, keys and values. */
  function Annotation(f: Fields, codec: Codec): seq<Pair> {
    [(SCHEMA, "2"), (PRODUCER, f.producer), (SOURCE, f.source), (SUBMITTED_AT, codec.showTime(f.submittedAt)),
     (PROOF, ProofPath(f)), (TRIGGERS, TriggerText(f.triggers))]
  }

  function Text(pairs: seq<Pair>): string {
    if pairs == [] then "" else Line(pairs[0].0, pairs[0].1) + "\n" + Text(pairs[1..])
  }

  /** What `create_timestamp_tag` writes. */
  function Rendered(f: Fields, codec: Codec): string {
    Text(Annotation(f, codec))
  }

  // ----- reading it back -----

  datatype Validated = Validated(schema: int, source: string, submittedAt: int, proof: string, triggers: set<string>,
                                 producer: Option<string>)

  /** The pairs as a dictionary, unless a key comes twice. */
  function FromPairs(pairs: seq<Pair>): Option<map<string, string>> {
    if pairs == [] then Some(map[])
    else
      var last := pairs[|pairs| - 1];
      match FromPairs(pairs[..|pairs| - 1])
      case None => None
      case Some(seen) => if last.0 in seen then None else Some(seen[last.0 := last.1])
  }

  predicate IsTriggerBreak(c: char) {
    IsSpace(c) || c == ','
  }

  function Tokens(text: string): set<string> {
    set t | t in Split(text, IsTriggerBreak) && t != ""
  }

  predicate Contains(s: string, part: string) {
    part <= s || (s != [] && Contains(s[1..], part))
  }

  const REQUIRED := {SCHEMA, SOURCE, SUBMITTED_AT, PROOF, TRIGGERS}

  function TimeText(s: string): string {
    if s != [] && s[|s| - 1] == 'Z' then s[..|s| - 1] + "+00:00" else s
  }

  /** `validate_timestamp_tag`; every deviation is refused. */
  function ValidatedTag(pairs: seq<Pair>, target: string, codec: Codec): Option<Validated> {
    match FromPairs(pairs)
    case None => None
    case Some(seen) =>
      if !(seen.Keys <= REQUIRED + {PRODUCER}) || !(REQUIRED <= seen.Keys) then None
      else
        var schema := codec.readInt(seen[SCHEMA]);
        var producer := if PRODUCER in seen then Some(seen[PRODUCER]) else None;
        var time := codec.readTime(TimeText(seen[SUBMITTED_AT]));
        var source, proof, triggers := seen[SOURCE], seen[PROOF], Tokens(seen[TRIGGERS]);
        if schema != Some(1) && schema != Some(2) then None
        else if schema == Some(2) && (producer == None || producer == Some("")) then None
        else if schema == Some(1) && producer.Some? then None
        else if !IsSource(source) || source != target || time.None? then None
        else if |proof| < 4 || proof[|proof| - 4..] != ".ots" || !Contains(proof, source) then None
        else if triggers == {} || !(triggers <= {EVERY_COMMIT, FIXED_TIME, MAX_AGE}) then None
        else Some(Validated(schema.value, source, time.value, proof, triggers, producer))
  }

  // ----- exactly what is accepted -----

  ghost predicate NoKeyTwice(pairs: seq<Pair>) {
    forall i, j :: 0 <= i < j < |pairs| ==> pairs[i].0 != pairs[j].0
  }

  lemma {:induction false} DictionaryExactly(pairs: seq<Pair>)
    ensures FromPairs(pairs).Some? <==> NoKeyTwice(pairs)
    ensures FromPairs(pairs).Some? ==>
              forall k, x :: (k, x) in pairs <==> k in FromPairs(pairs).value && FromPairs(pairs).value[k] == x
    decreases |pairs|
  {
    if pairs != [] {
      var init, last := pairs[..|pairs| - 1], pairs[|pairs| - 1];
      DictionaryExactly(init);
      assert pairs == init + [last];
      assert forall p: Pair :: p in pairs <==> p in init || p == last;
      if FromPairs(init).Some? && last.0 in FromPairs(init).value {
        var x := FromPairs(init).value[last.0];
        assert (last.0, x) in init;
        var i :| 0 <= i < |init| && init[i] == (last.0, x);
        assert pairs[i].0 == pairs[|init|].0;
      }
      if FromPairs(init).Some? && last.0 !in FromPairs(init).value {
        forall i, j | 0 <= i < j < |pairs| ensures pairs[i].0 != pairs[j].0 {
          if j == |init| {
            assert (init[i].0, init[i].1) in init;
          }
        }
      }
      assert NoKeyTwice(pairs) ==> NoKeyTwice(init);
    }
  }

  /** The lines of a valid annotation, in any order: each required key once, a producer exactly under schema 2, no other
      key; the source is the tag's own, the proof path a `.ots` that names it, the triggers known and at least one. */
  ghost predicate Valid(pairs: seq<Pair>, target: string, codec: Codec, v: Validated, schema: string, time: string,
                        triggers: string) {
    && NoKeyTwice(pairs) && (forall p: Pair :: p in pairs ==> p.0 in REQUIRED + {PRODUCER})
    && (SCHEMA, schema) in pairs && (SOURCE, v.source) in pairs && (SUBMITTED_AT, time) in pairs
    && (PROOF, v.proof) in pairs && (TRIGGERS, triggers) in pairs
    && codec.readInt(schema) == Some(v.schema)
    && (match v.producer
        case None => v.schema == 1 && forall x :: (PRODUCER, x) !in pairs
        case Some(name) => v.schema == 2 && name != "" && (PRODUCER, name) in pairs)
    && IsSource(v.source) && v.source == target
    && codec.readTime(TimeText(time)) == Some(v.submittedAt)
    && |v.proof| >= 4 && v.proof[|v.proof| - 4..] == ".ots" && Contains(v.proof, v.source)
    && v.triggers == Tokens(triggers) && {} < v.triggers <= {EVERY_COMMIT, FIXED_TIME, MAX_AGE}
  }

  lemma AcceptedIsValid(pairs: seq<Pair>, target: string, codec: Codec, v: Validated)
    requires ValidatedTag(pairs, target, codec) == Some(v)
    ensures var seen := FromPairs(pairs).value;
            SCHEMA in seen && SUBMITTED_AT in seen && TRIGGERS in seen
            && Valid(pairs, target, codec, v, seen[SCHEMA], seen[SUBMITTED_AT], seen[TRIGGERS])
  {
    hide IsSource, Contains, Tokens, TimeText, NoKeyTwice;
    DictionaryExactly(pairs);
    var seen := FromPairs(pairs).value;
    forall p: Pair | p in pairs ensures p.0 in REQUIRED + {PRODUCER} {
      assert (p.0, p.1) in pairs;
    }
    assert {SCHEMA, SOURCE, SUBMITTED_AT, PROOF, TRIGGERS} <= seen.Keys;
    assert SCHEMA in seen && SOURCE in seen && SUBMITTED_AT in seen && PROOF in seen && TRIGGERS in seen;
    assert (SCHEMA, seen[SCHEMA]) in pairs && (SOURCE, seen[SOURCE]) in pairs;
    assert (SUBMITTED_AT, seen[SUBMITTED_AT]) in pairs && (PROOF, seen[PROOF]) in pairs;
    assert (TRIGGERS, seen[TRIGGERS]) in pairs;
    assert PRODUCER in seen ==> (PRODUCER, seen[PRODUCER]) in pairs;
  }

  lemma ValidIsAccepted(pairs: seq<Pair>, target: string, codec: Codec, v: Validated, schema: string, time: string,
                        triggers: string)
    requires Valid(pairs, target, codec, v, schema, time, triggers)
    ensures ValidatedTag(pairs, target, codec) == Some(v)
  {
    hide IsSource, Contains, Tokens, TimeText, FromPairs, NoKeyTwice;
    DictionaryExactly(pairs);
    var seen := FromPairs(pairs).value;
    forall k | k in seen ensures k in REQUIRED + {PRODUCER} {
      assert (k, seen[k]) in pairs;
    }
    assert PRODUCER in seen ==> (PRODUCER, seen[PRODUCER]) in pairs;
  }

  /** An annotation is accepted exactly when it is one of these, with exactly the facts its lines state. */
  lemma ValidatedExactly(pairs: seq<Pair>, target: string, codec: Codec, v: Validated)
    ensures ValidatedTag(pairs, target, codec) == Some(v)
       <==> exists schema, time, triggers :: Valid(pairs, target, codec, v, schema, time, triggers)
  {
    if ValidatedTag(pairs, target, codec) == Some(v) {
      AcceptedIsValid(pairs, target, codec, v);
      var seen := FromPairs(pairs).value;
      assert Valid(pairs, target, codec, v, seen[SCHEMA], seen[SUBMITTED_AT], seen[TRIGGERS]);
    }
    if schema, time, triggers :| Valid(pairs, target, codec, v, schema, time, triggers) {
      ValidIsAccepted(pairs, target, codec, v, schema, time, triggers);
    }
    hide ValidatedTag, Valid;
  }

  // ----- round trips -----

  lemma TrimOneLine(s: string)
    requires OneLine(s)
    ensures Trim(s) == s && Trim(" " + s) == s
  {
    assert (" " + s)[1..] == s;
    assert TrimLeft(" " + s) == TrimLeft(s) == s;
    assert TrimRight(s) == s;
  }

  /** A key that survives being written: one line, no colon. */
  predicate IsKey(s: string) {
    s != "" && OneLine(s) && forall i :: 0 <= i < |s| ==> !IsColon(s[i])
  }

  predicate Writable(pairs: seq<Pair>) {
    forall i :: 0 <= i < |pairs| ==> IsKey(pairs[i].0) && OneLine(pairs[i].1)
  }

  lemma ArmorHasNoColon(line: string)
    ensures ':' in line ==> !IsArmor(line)
  {
    assert |line| >= 17 ==> line == line[..11] + line[11..|line| - 5] + line[|line| - 5..];
  }

  lemma LineIsThree(key: string, value: string)
    ensures Line(key, value) == key + [':'] + (" " + value)
    ensures Line(key, value)[|key|] == ':' && Line(key, value)[..|key|] == key && Line(key, value)[|key| + 1..] == " " + value
  {
  }

  lemma LineParses(key: string, value: string)
    requires IsKey(key) && OneLine(value)
    ensures ParseLine(Line(key, value)) == [(key, value)]
  {
    hide Trim, TrimLeft, TrimRight, IsSpace, IsBreak, Line;
    LineIsThree(key, value);
    FindAppend(key, ':', " " + value, IsColon);
    TrimOneLine(key);
    TrimOneLine(value);
  }

  lemma LineIsOneLine(key: string, value: string)
    requires IsKey(key) && OneLine(value)
    ensures forall i :: 0 <= i < |Line(key, value)| ==> !IsBreak(Line(key, value)[i]) && !IsNewline(Line(key, value)[i])
    ensures !IsArmor(Line(key, value))
  {
    assert !IsBreak(' ') && !IsBreak(':') && IsBreak('\n');
    hide IsSpace, IsBreak, IsArmor, Line;
    LineIsThree(key, value);
    var line := Line(key, value);
    forall i | 0 <= i < |line| ensures !IsBreak(line[i]) {
      assert line[i] == if i < |key| then key[i] else if i == |key| then ':' else if i == |key| + 1 then ' ' else value[i - |key| - 2];
    }
    ArmorHasNoColon(line);
  }

  lemma TextIsLine(pairs: seq<Pair>)
    requires pairs != []
    ensures Text(pairs) == Line(pairs[0].0, pairs[0].1) + ['\n'] + Text(pairs[1..])
  {
  }

  lemma SplitEmpty()
    ensures Parsed("") == []
  {
    assert Split("", IsBreak) == [""];
    assert ParseLines([""]) == ParseLine("") + ParseLines([]);
  }

  lemma ParsedFirst(line: string, rest: string)
    requires forall i :: 0 <= i < |line| ==> !IsBreak(line[i])
    ensures Parsed(line + ['\n'] + rest) == ParseLine(line) + Parsed(rest)
  {
    assert IsBreak('\n');
    hide IsBreak, ParseLine, Find, Split;
    SplitFirst(line, '\n', rest, IsBreak);
    assert ([line] + Split(rest, IsBreak))[1..] == Split(rest, IsBreak);
  }

  lemma {:induction false} TextParses(pairs: seq<Pair>)
    requires Writable(pairs)
    ensures Parsed(Text(pairs)) == pairs
  {
    hide IsBreak, IsSpace, Line, ParseLine, IsArmor, Find, Parsed, IsKey, OneLine;
    if pairs == [] {
      SplitEmpty();
    } else {
      var line, rest := Line(pairs[0].0, pairs[0].1), Text(pairs[1..]);
      TextIsLine(pairs);
      hide Text;
      LineParses(pairs[0].0, pairs[0].1);
      LineIsOneLine(pairs[0].0, pairs[0].1);
      TextParses(pairs[1..]);
      ParsedFirst(line, rest);
      assert pairs == [pairs[0]] + pairs[1..];
    }
  }

  /** Nothing, or what a signer appends: text whose first line is an armor line. */
  predicate IsSignature(sig: string) {
    sig == "" || IsArmor(sig[..Find(sig, IsNewline)])
  }

  lemma StripsSignature(sig: string)
    ensures IsSignature(sig) ==> Stripped(sig) == ""
  {
    hide IsArmor;
  }

  lemma StripKeepsLine(line: string, rest: string)
    requires !IsArmor(line) && forall i :: 0 <= i < |line| ==> !IsNewline(line[i])
    ensures Stripped(line + ['\n'] + rest) == line + ['\n'] + Stripped(rest)
  {
    hide IsArmor, Find;
    var body := line + ['\n'] + rest;
    FindAppend(line, '\n', rest, IsNewline);
    StripNext(body);
    hide Stripped;
    assert body[..|line|] == line && body[..|line| + 1] == line + ['\n'] && body[|line| + 1..] == rest;
  }

  lemma {:induction false} TextSurvivesSigning(pairs: seq<Pair>, sig: string)
    requires Writable(pairs) && IsSignature(sig)
    ensures Stripped(Text(pairs) + sig) == Text(pairs)
  {
    hide IsBreak, IsNewline, IsSpace, Line, IsArmor, Find, Stripped, IsKey, OneLine;
    if pairs == [] {
      assert Text(pairs) + sig == sig;
      StripsSignature(sig);
    } else {
      var line, rest := Line(pairs[0].0, pairs[0].1), Text(pairs[1..]);
      TextIsLine(pairs);
      LineIsOneLine(pairs[0].0, pairs[0].1);
      TextSurvivesSigning(pairs[1..], sig);
      hide Text, Writable, IsSignature;
      StripKeepsLine(line, rest + sig);
      Associate(line + ['\n'], rest, sig);
    }
  }

  // ----- validation of what was written -----

  predicate IsWordChar(c: char) {
    'a' <= c <= 'z' || c == '_' || c == '-' || '0' <= c <= '9'
  }

  lemma WordCharIsPlain(c: char)
    requires IsWordChar(c)
    ensures !IsSpace(c) && !IsBreak(c) && !IsColon(c) && !IsTriggerBreak(c)
  {
  }

  predicate IsWord(s: string) {
    s != "" && forall i :: 0 <= i < |s| ==> IsWordChar(s[i])
  }

  lemma WordIsKey(s: string)
    requires IsWord(s)
    ensures IsKey(s) && forall i :: 0 <= i < |s| ==> !IsTriggerBreak(s[i])
  {
    forall i | 0 <= i < |s| ensures !IsSpace(s[i]) && !IsBreak(s[i]) && !IsColon(s[i]) && !IsTriggerBreak(s[i]) {
      WordCharIsPlain(s[i]);
    }
    hide IsSpace, IsBreak, IsColon, IsTriggerBreak, IsWordChar;
  }

  lemma KeysAreWords()
    ensures IsWord(PRODUCER) && IsWord(SOURCE) && IsWord(SUBMITTED_AT) && IsWord(PROOF) && IsWord(TRIGGERS) && IsWord("2")
  {
  }

  lemma TriggersAreWords()
    ensures IsWord(EVERY_COMMIT) && IsWord(FIXED_TIME) && IsWord(MAX_AGE)
  {
  }

  lemma SpaceIsNoBreak()
    ensures !IsBreak(' ') && !IsColon(' ') && IsTriggerBreak(' ')
  {
  }

  lemma SchemaIsKey()
    ensures IsKey(SCHEMA)
  {
    assert forall i :: 0 <= i < |SCHEMA| ==> SCHEMA[i] == ' ' || IsWordChar(SCHEMA[i]);
    assert IsWordChar(SCHEMA[0]) && IsWordChar(SCHEMA[|SCHEMA| - 1]);
    SpaceIsNoBreak();
    hide IsBreak, IsSpace, IsColon, IsWordChar;
    forall i | 0 <= i < |SCHEMA| ensures !IsBreak(SCHEMA[i]) && !IsColon(SCHEMA[i]) {
      if SCHEMA[i] != ' ' {
        WordCharIsPlain(SCHEMA[i]);
      }
    }
    WordCharIsPlain(SCHEMA[0]);
    WordCharIsPlain(SCHEMA[|SCHEMA| - 1]);
  }

  lemma KeysAreKeys()
    ensures IsKey(SCHEMA) && IsKey(PRODUCER) && IsKey(SOURCE) && IsKey(SUBMITTED_AT) && IsKey(PROOF) && IsKey(TRIGGERS)
    ensures IsKey("2")
  {
    hide IsKey, IsWord;
    SchemaIsKey();
    KeysAreWords();
    WordIsKey(PRODUCER);
    WordIsKey(SOURCE);
    WordIsKey(SUBMITTED_AT);
    WordIsKey(PROOF);
    WordIsKey(TRIGGERS);
    WordIsKey("2");
  }

  lemma TwoWords(a: string, b: string)
    requires a != "" && b != "" && OneLine(a) && OneLine(b) && !IsBreak(' ')
    ensures OneLine(a + " " + b) && a + " " + b != ""
  {
    hide IsBreak, IsSpace;
  }

  lemma OneToken(word: string)
    requires IsWord(word)
    ensures Tokens(word) == {word}
  {
    WordIsKey(word);
    hide IsTriggerBreak, IsKey;
    assert Split(word, IsTriggerBreak) == [word];
  }

  lemma FirstToken(word: string, rest: string)
    requires IsWord(word)
    ensures Tokens(word + " " + rest) == {word} + Tokens(rest)
  {
    WordIsKey(word);
    SpaceIsNoBreak();
    hide IsTriggerBreak, Find, Split, IsKey;
    SplitFirst(word, ' ', rest, IsTriggerBreak);
    assert word + [' '] + rest == word + " " + rest;
  }

  lemma TokensOfTriggers(triggers: set<string>)
    requires triggers != {} && triggers <= {EVERY_COMMIT, FIXED_TIME, MAX_AGE}
    ensures Tokens(TriggerText(triggers)) == triggers
  {
    TriggersAreWords();
    hide Tokens, IsWord;
    OneToken(EVERY_COMMIT);
    OneToken(FIXED_TIME);
    OneToken(MAX_AGE);
    FirstToken(FIXED_TIME, MAX_AGE);
    FirstToken(EVERY_COMMIT, MAX_AGE);
    FirstToken(EVERY_COMMIT, FIXED_TIME);
    FirstToken(EVERY_COMMIT, FIXED_TIME + " " + MAX_AGE);
  }

  lemma TriggersAreOneLine(triggers: set<string>)
    ensures OneLine(TriggerText(triggers))
  {
    TriggersAreWords();
    WordIsKey(EVERY_COMMIT);
    WordIsKey(FIXED_TIME);
    WordIsKey(MAX_AGE);
    SpaceIsNoBreak();
    hide IsBreak, IsSpace, OneLine, IsWord;
    TwoWords(FIXED_TIME, MAX_AGE);
    TwoWords(EVERY_COMMIT, MAX_AGE);
    TwoWords(EVERY_COMMIT, FIXED_TIME);
    TwoWords(EVERY_COMMIT, FIXED_TIME + " " + MAX_AGE);
    EmptyIsOneLine();
  }

  lemma EmptyIsOneLine()
    ensures OneLine("")
  {
  }

  lemma HexIsOneLine(s: string)
    requires IsSource(s)
    ensures OneLine(s) && s != ""
  {
  }

  lemma OtsIsOneLine()
    ensures forall i :: 0 <= i < |".ots"| ==> !IsBreak(".ots"[i])
    ensures !IsBreak('/') && !IsSpace(".ots"[3])
  {
  }

  lemma PathIsOneLine(f: Fields)
    requires ValidFields(f)
    ensures OneLine(ProofPath(f))
  {
    HexIsOneLine(f.source);
    OtsIsOneLine();
    hide IsBreak, IsSpace, IsLowerHex;
    var path := ProofPath(f);
    forall i | 0 <= i < |path| ensures !IsBreak(path[i]) {
      var d, e := |f.directory|, |f.directory| + 1 + |f.source|;
      assert path[i] == if i < d then f.directory[i] else if i == d then '/' else if i < e then f.source[i - d - 1]
                        else ".ots"[i - e];
    }
    assert path[0] == f.directory[0] && path[|path| - 1] == ".ots"[3];
  }

  lemma AnnotationIsWritable(f: Fields, codec: Codec)
    requires ValidFields(f) && ValidCodec(codec)
    ensures Writable(Annotation(f, codec))
  {
    KeysAreKeys();
    HexIsOneLine(f.source);
    PathIsOneLine(f);
    TriggersAreOneLine(f.triggers);
    assert Inverts(codec, f.submittedAt);
    hide OneLine, IsKey, IsBreak, IsSpace, TriggerText, ProofPath, IsSource;
  }

  lemma AddPair(pairs: seq<Pair>, key: string, value: string, seen: map<string, string>)
    requires FromPairs(pairs) == Some(seen) && key !in seen
    ensures FromPairs(pairs + [(key, value)]) == Some(seen[key := value])
  {
    assert (pairs + [(key, value)])[..|pairs|] == pairs;
  }

  lemma KeysDiffer()
    ensures |{SCHEMA, PRODUCER, SOURCE, SUBMITTED_AT, PROOF, TRIGGERS}| == 6
    ensures SCHEMA != PRODUCER && SCHEMA != SOURCE && SCHEMA != SUBMITTED_AT && SCHEMA != PROOF && SCHEMA != TRIGGERS
    ensures PRODUCER != SOURCE && PRODUCER != SUBMITTED_AT && PRODUCER != PROOF && PRODUCER != TRIGGERS
    ensures SOURCE != SUBMITTED_AT && SOURCE != PROOF && SOURCE != TRIGGERS
    ensures SUBMITTED_AT != PROOF && SUBMITTED_AT != TRIGGERS && PROOF != TRIGGERS
  {
    assert SOURCE[0] != SUBMITTED_AT[1] && PRODUCER[0] != SOURCE[0];
    assert |SCHEMA| == 14 && |PRODUCER| == 8 && |SOURCE| == 6 && |SUBMITTED_AT| == 12 && |PROOF| == 5 && |TRIGGERS| == 8;
    assert PRODUCER[0] != TRIGGERS[0];
  }

  /** The annotation as a dictionary. */
  function Seen(f: Fields, codec: Codec): map<string, string> {
    map[SCHEMA := "2", PRODUCER := f.producer, SOURCE := f.source, SUBMITTED_AT := codec.showTime(f.submittedAt),
        PROOF := ProofPath(f), TRIGGERS := TriggerText(f.triggers)]
  }

  lemma AnnotationReads(f: Fields, codec: Codec)
    ensures FromPairs(Annotation(f, codec)) == Some(Seen(f, codec))
  {
    KeysDiffer();
    var time, path, triggers := codec.showTime(f.submittedAt), ProofPath(f), TriggerText(f.triggers);
    hide TriggerText, ProofPath;
    assert FromPairs([]) == Some(map[]);
    AddPair([], SCHEMA, "2", map[]);
    var p1, m1 := [(SCHEMA, "2")], map[SCHEMA := "2"];
    assert [] + [(SCHEMA, "2")] == p1;
    AddPair(p1, PRODUCER, f.producer, m1);
    var p2, m2 := p1 + [(PRODUCER, f.producer)], m1[PRODUCER := f.producer];
    AddPair(p2, SOURCE, f.source, m2);
    var p3, m3 := p2 + [(SOURCE, f.source)], m2[SOURCE := f.source];
    AddPair(p3, SUBMITTED_AT, time, m3);
    var p4, m4 := p3 + [(SUBMITTED_AT, time)], m3[SUBMITTED_AT := time];
    AddPair(p4, PROOF, path, m4);
    var p5, m5 := p4 + [(PROOF, path)], m4[PROOF := path];
    AddPair(p5, TRIGGERS, triggers, m5);
    assert p5 + [(TRIGGERS, triggers)] == Annotation(f, codec);
  }

  lemma SeenEntries(f: Fields, codec: Codec)
    ensures var seen := Seen(f, codec);
            && seen.Keys == REQUIRED + {PRODUCER}
            && seen[SCHEMA] == "2" && seen[PRODUCER] == f.producer && seen[SOURCE] == f.source
            && seen[SUBMITTED_AT] == codec.showTime(f.submittedAt) && seen[PROOF] == ProofPath(f)
            && seen[TRIGGERS] == TriggerText(f.triggers)
  {
    KeysDiffer();
    hide ProofPath, TriggerText;
  }

  lemma {:induction false} ContainsMiddle(a: string, part: string, b: string)
    ensures Contains(a + part + b, part)
  {
    var s := a + part + b;
    if a == [] {
      assert s == part + b;
    } else {
      assert s[1..] == a[1..] + part + b;
      ContainsMiddle(a[1..], part, b);
    }
  }

  lemma PathNamesSource(f: Fields)
    ensures var path := ProofPath(f); |path| >= 4 && path[|path| - 4..] == ".ots" && Contains(path, f.source)
  {
    ContainsMiddle(f.directory + "/", f.source, ".ots");
  }

  /** What was written validates, as read back from a pristine annotation. */
  lemma AnnotationValidates(f: Fields, codec: Codec)
    requires ValidFields(f) && ValidCodec(codec)
    ensures ValidatedTag(Annotation(f, codec), f.source, codec)
         == Some(Validated(2, f.source, f.submittedAt, ProofPath(f), f.triggers, Some(f.producer)))
  {
    hide FromPairs, Seen, TriggerText, ProofPath, Tokens, Contains, OneLine, IsSource, Annotation;
    AnnotationReads(f, codec);
    SeenEntries(f, codec);
    PathNamesSource(f);
    TokensOfTriggers(f.triggers);
    assert Inverts(codec, f.submittedAt);
  }

  /** What was written, signed by anyone or no one, strips back to itself, and stripped, parsed and validated
      gives back every fact. */
  lemma WrittenTagReadsBack(f: Fields, codec: Codec, sig: string)
    requires ValidFields(f) && ValidCodec(codec) && IsSignature(sig)
    ensures Stripped(Rendered(f, codec) + sig) == Rendered(f, codec)
    ensures ValidatedTag(Parsed(Stripped(Rendered(f, codec) + sig)), f.source, codec)
         == Some(Validated(2, f.source, f.submittedAt, ProofPath(f), f.triggers, Some(f.producer)))
  {
    hide ValidFields, ValidCodec, IsSignature, Stripped, Text, Parsed, ValidatedTag, Annotation, Writable;
    AnnotationIsWritable(f, codec);
    TextSurvivesSigning(Annotation(f, codec), sig);
    TextParses(Annotation(f, codec));
    AnnotationValidates(f, codec);
  }

  /** The collision test of `create_timestamp_tag`, for a tag that is already there. */
  predicate Accepted(f: Fields, codec: Codec, target: string, body: string) {
    target == f.source && Stripped(body) == Rendered(f, codec)
  }

  /** Creating a tag again is accepted as identical exactly when it is the same tag, whoever signed the first;
      any other is a collision. */
  lemma OnlyTheSameTagIsAccepted(f: Fields, g: Fields, codec: Codec, sig: string)
    requires ValidFields(f) && ValidFields(g) && ValidCodec(codec) && IsSignature(sig)
    ensures Accepted(f, codec, g.source, Rendered(g, codec) + sig) <==> f == g
  {
    hide ValidFields, ValidCodec, Rendered, ProofPath, ValidatedTag;
    WrittenTagReadsBack(f, codec, "");
    WrittenTagReadsBack(g, codec, "");
    WrittenTagReadsBack(g, codec, sig);
    assert Rendered(f, codec) + "" == Rendered(f, codec) && Rendered(g, codec) + "" == Rendered(g, codec);
    hide Stripped, Parsed;
    if f.source == g.source && ProofPath(f) == ProofPath(g) {
      SamePathSameDirectory(f, g);
    }
  }

  lemma SamePathSameDirectory(f: Fields, g: Fields)
    requires f.source == g.source && ProofPath(f) == ProofPath(g)
    ensures f.directory == g.directory
  {
    assert ProofPath(f) == f.directory + ("/" + f.source + ".ots");
    assert ProofPath(g) == g.directory + ("/" + g.source + ".ots");
    assert ProofPath(f)[..|f.directory|] == f.directory && ProofPath(g)[..|g.directory|] == g.directory;
  }
}
