/** The skipping parser of `timestamp.py` and the classification built on it. It is proved against
    the tree-building parser: same successes, same offsets, same failures. */
module Skip {
  import opened Wire
  import opened Tree
  import opened Grammar
  import opened Codec

  const BITCOIN: Bytes := [0x05, 0x88, 0x96, 0x0d, 0x73, 0xd7, 0x19, 0x01]
  const PENDING: Bytes := [0x83, 0xdf, 0xe3, 0x0d, 0x2e, 0xf9, 0x0c, 0x8e]

  /** The attestation tags below a node. */
  function Tags<A>(items: seq<Item<A>>): set<Bytes>
    decreases items, 0
  {
    if items == [] then {} else Tags(items[..|items| - 1]) + TagsOf(items[|items| - 1])
  }

  function TagsOf<A>(item: Item<A>): set<Bytes>
    decreases item, 1
  {
    match item
    case Attestation(tag, _) => {tag}
    case Branch(_, child) => Tags(child.items)
  }

  function SkipAttestation(data: Bytes, offset: nat): (r: Parsed<()>)
    ensures match ReadAttestation(data, offset)
            case Fail(e) => r == Fail(e)
            case Ok(item, next) => r == Ok((), next) && item.tag == data[offset..offset + 8]
  {
    if offset + 8 > |data| then Fail(ParseError)
    else
      match ReadVaruint(data, offset + 8)
      case Fail(e) => Fail(e)
      case Ok(length, start) => if start + length > |data| then Fail(ParseError) else Ok((), start + length)
  }

  function SkipOperation(data: Bytes, offset: nat): (r: Parsed<()>)
    ensures match ReadOperation(data, offset)
            case Fail(e) => r == Fail(e)
            case Ok(_, next) => r == Ok((), next)
  {
    if offset >= |data| then Fail(ParseError)
    else if data[offset] in UNARY_OPS then Ok((), offset + 1)
    else if data[offset] in BINARY_OPS then
      match ReadVaruint(data, offset + 1)
      case Fail(e) => Fail(e)
      case Ok(length, start) => if start + length > |data| then Fail(ParseError) else Ok((), start + length)
    else Fail(ParseError)
  }

  lemma TagsSnoc<A>(items: seq<Item<A>>, item: Item<A>)
    ensures Tags(items + [item]) == Tags(items) + TagsOf(item)
  {
    assert (items + [item])[..|items|] == items;
  }

  /** What skipping must answer, given what building answers. */
  ghost predicate SkipsLike(r: Parsed<set<Bytes>>, built: Parsed<Timestamp>) {
    match built
    case Fail(e) => r == Fail(e)
    case Ok(t, next) => r == Ok(Tags(t.items), next)
  }

  /** `_parse_timestamp_tree`. */
  method SkipTree(data: Bytes, start: nat, depth: nat) returns (r: Parsed<set<Bytes>>)
    ensures SkipsLike(r, ParseNode(data, start, depth))
    decreases |data| - start, 1
  {
    if depth > MAX_DEPTH {
      return Fail(ParseError);
    }
    var seen: set<Bytes>, offset := {}, start;
    ghost var done: seq<Item<()>> := [];
    ContinueStart(data, start, depth);
    hide ParseItem, ParseItems, Continues;
    while offset < |data| && data[offset] == FORK
      invariant start <= offset
      invariant Continues(data, start, depth, done, offset) && seen == Tags(done)
      decreases |data| - offset
    {
      ContinuePastFork(data, start, depth, done, offset);
      var tags := SkipItem(data, offset + 1, depth);
      if tags.Fail? {
        return Fail(tags.error);
      }
      var item := ParseItem(data, offset + 1, depth).value;
      TagsSnoc(done, item);
      seen, offset, done := seen + tags.value, tags.next, done + [item];
    }
    ContinueToLast(data, start, depth, done, offset);
    if offset >= |data| {
      return Fail(Truncated);
    }
    var tags := SkipItem(data, offset, depth);
    if tags.Fail? {
      return Fail(tags.error);
    }
    TagsSnoc(done, ParseItem(data, offset, depth).value);
    return Ok(seen + tags.value, tags.next);
  }

  /** One attestation, or one operation and the tree below it. */
  method SkipItem(data: Bytes, offset: nat, depth: nat) returns (r: Parsed<set<Bytes>>)
    ensures match ParseItem(data, offset, depth)
            case Fail(e) => r == Fail(e)
            case Ok(item, next) => r == Ok(TagsOf(item), next)
    decreases |data| - offset, 0
  {
    if offset >= |data| {
      return Fail(ForkAtEnd);
    }
    if data[offset] == 0 {
      if offset + 9 > |data| {
        return Fail(ParseError);
      }
      var tag, rest := data[offset + 1..offset + 9], SkipAttestation(data, offset + 1);
      return if rest.Fail? then Fail(rest.error) else Ok({tag}, rest.next);
    }
    var operation := SkipOperation(data, offset);
    if operation.Fail? {
      return Fail(operation.error);
    }
    r := SkipTree(data, operation.next, depth + 1);
  }

  // ----- classification -----

  datatype Verdict = Valid | PendingAttestation

  /** The header as every reader but `parse_proof` takes it: the version is the single byte one. */
  function ReadStrictHeader(data: Bytes): (r: Parsed<Bytes>)
    ensures r.Ok? ==> ReadHeader(data) == r
  {
    if !(MAGIC <= data) || |data| <= |MAGIC| || data[|MAGIC|] != 1 then Fail(ParseError)
    else ReadDigest(data, |MAGIC| + 1)
  }

  /** Some operation path reaches an attestation with this tag. */
  ghost predicate AttestsTag<A>(t: Tree<A>, tag: Bytes) {
    exists path, c :: Attests(t, path, c) && c.tag == tag
  }

  ghost predicate ItemAttestsTag<A>(item: Item<A>, tag: Bytes) {
    exists path, c :: ItemAttests(item, path, c) && c.tag == tag
  }

  lemma {:induction false} TagMeansAttested<A>(t: Tree<A>, tag: Bytes)
    ensures tag in Tags(t.items) <==> AttestsTag(t, tag)
    decreases t
  {
    TagOfSomeItem(t.items, tag);
    if tag in Tags(t.items) {
      var i :| 0 <= i < |t.items| && tag in TagsOf(t.items[i]);
      ItemTagMeansAttested(t.items[i], tag);
      var path, c :| ItemAttests(t.items[i], path, c) && c.tag == tag;
      assert Attests(t, path, c);
    }
    if AttestsTag(t, tag) {
      var path, c :| Attests(t, path, c) && c.tag == tag;
      var i :| 0 <= i < |t.items| && ItemAttests(t.items[i], path, c);
      ItemTagMeansAttested(t.items[i], tag);
    }
  }

  lemma {:induction false} ItemTagMeansAttested<A>(item: Item<A>, tag: Bytes)
    ensures tag in TagsOf(item) <==> ItemAttestsTag(item, tag)
    decreases item
  {
    match item
    case Attestation(other, payload) =>
      assert ItemAttests(item, [], Claim(other, payload));
    case Branch(operation, child) =>
      TagMeansAttested(child, tag);
      if tag in Tags(child.items) {
        var path, c :| Attests(child, path, c) && c.tag == tag;
        assert ([operation] + path)[1..] == path;
        assert ItemAttests(item, [operation] + path, c);
      }
      if ItemAttestsTag(item, tag) {
        var path, c :| ItemAttests(item, path, c) && c.tag == tag;
        assert Attests(child, path[1..], c);
      }
  }

  lemma {:induction false} TagOfSomeItem<A>(items: seq<Item<A>>, tag: Bytes)
    ensures tag in Tags(items) <==> exists i :: 0 <= i < |items| && tag in TagsOf(items[i])
    decreases |items|
  {
    if items != [] {
      TagOfSomeItem(items[..|items| - 1], tag);
    }
  }

  /** A well-formed timestamp carries an attestation, so "contains no attestations" never happens. */
  lemma {:induction false} ParsedTreeHasTag<A>(items: seq<Item<A>>)
    requires WellFormedItems(items)
    ensures Tags(items) != {}
    decreases items
  {
    var last := items[|items| - 1];
    assert WellFormedItem(last);
    if last.Branch? {
      ParsedTreeHasTag(last.child.items);
      assert TagsOf(last) != {};
      var tag :| tag in TagsOf(last);
      assert tag in Tags(items);
    } else {
      assert last.tag in Tags(items);
    }
  }

  /** `classify_detached_proof`. It accepts exactly the proofs that parse and spell the version in
      one byte, and says `Valid` exactly when some path reaches a Bitcoin attestation. */
  method Classify(data: Bytes) returns (r: Parsed<Verdict>)
    ensures r.Ok? <==> ReadStrictHeader(data).Ok? && ParseProof(data).Ok?
    ensures r.Ok? ==> (r.value == Valid <==> AttestsTag(ParseProof(data).value.root, BITCOIN))
  {
    var header := ReadStrictHeader(data);
    if header.Fail? {
      return Fail(header.error);
    }
    if header.next >= |data| {
      return Fail(ParseError);
    }
    var tags := SkipTree(data, header.next, 0);
    if tags.Fail? {
      return Fail(tags.error);
    }
    if tags.next != |data| {
      return Fail(ParseError);
    }
    ghost var root := ParseProof(data).value.root;
    ParsedProofIsWellFormed(data);
    if tags.value == {} {
      // "timestamp tree contains no attestations" is raised here, and cannot be.
      ParsedTreeHasTag(root.items);
      assert false;
    }
    TagMeansAttested(root, BITCOIN);
    return Ok(if BITCOIN in tags.value then Valid else PendingAttestation, |data|);
  }
}
