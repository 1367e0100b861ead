/** Executing a timestamp: what `anchors.py` reports. The meaning of a parsed tree is given by
    recursion on the tree; the streaming executor over raw bytes is proved to compute it, to stop where the tree
    builder stops, and to fail where that fails or where a Bitcoin payload has no readable height. */
module Anchors {
  import opened Wire
  import opened Tree
  import opened Grammar
  import opened Codec
  import opened Skip
  import opened Transaction

  /** The foreign functions: hashes (RIPEMD-160 may be absent from the host) and UTF-8 decoding. */
  datatype Host = Host(
    sha1: Bytes -> Bytes,
    sha256: Bytes -> Bytes,
    ripemd160: Bytes -> Option<Bytes>,
    utf8: Bytes -> Option<string>)

  datatype Anchor = Anchor(
    height: nat,
    message: Bytes,
    transactionId: Option<Bytes>,
    opReturn: Option<Bytes>,
    calendars: seq<string>)

  /** What executing the proof so far has produced on the current branch. */
  datatype State = State(
    message: Bytes,
    calendars: seq<string>,
    transactionId: Option<Bytes>,
    opReturn: Option<Bytes>)

  function Reverse(b: Bytes): (r: Bytes)
    ensures |r| == |b|
  {
    if b == [] then [] else Reverse(b[1..]) + [b[0]]
  }

  function HexDigit(n: nat): byte
    requires n < 16
  {
    if n < 10 then 0x30 + n else 0x57 + n
  }

  function Hexlify(b: Bytes): Bytes {
    if b == [] then [] else [HexDigit(b[0] / 16), HexDigit(b[0] % 16)] + Hexlify(b[1..])
  }

  // ----- one operation -----

  /** The argument in a binary operation's verbatim bytes. */
  function Argument(op: Bytes): Bytes {
    match ReadVaruint(op, 1)
    case Fail(_) => []
    case Ok(_, start) => op[start..]
  }

  /** The message after one operation, or `None` when this host cannot execute it. */
  function Execute(h: Host, op: Bytes, message: Bytes): Option<Bytes> {
    if op == [] then None
    else if op[0] == 0xf0 then Some(message + Argument(op))
    else if op[0] == 0xf1 then Some(Argument(op) + message)
    else if op[0] == 0x08 then Some(h.sha256(message))
    else if op[0] == 0x02 then Some(h.sha1(message))
    else if op[0] == 0x03 then h.ripemd160(message)
    else if op[0] == 0xf2 then Some(Reverse(message))
    else if op[0] == 0xf3 then Some(Hexlify(message))
    else None
  }

  /** `_apply_operation`, straight from the bytes. */
  function ApplyOperation(h: Host, data: Bytes, offset: nat, message: Bytes): Parsed<Option<Bytes>> {
    if offset >= |data| then Fail(ParseError)
    else if data[offset] in BINARY_OPS then
      match ReadVaruint(data, offset + 1)
      case Fail(e) => Fail(e)
      case Ok(length, start) =>
        if start + length > |data| then Fail(ParseError)
        else
          var argument := data[start..start + length];
          Ok(Some(if data[offset] == 0xf0 then message + argument else argument + message), start + length)
    else if data[offset] == 0x08 then Ok(Some(h.sha256(message)), offset + 1)
    else if data[offset] == 0x02 then Ok(Some(h.sha1(message)), offset + 1)
    else if data[offset] == 0x03 then Ok(h.ripemd160(message), offset + 1)
    else if data[offset] == 0xf2 then Ok(Some(Reverse(message)), offset + 1)
    else if data[offset] == 0xf3 then Ok(Some(Hexlify(message)), offset + 1)
    else if data[offset] == 0x67 then Ok(None, offset + 1)
    else Fail(ParseError)
  }

  /** Executing bytes is reading an operation and executing what was read. */
  lemma ApplyIsReadThenExecute(h: Host, data: Bytes, offset: nat, message: Bytes)
    ensures match ReadOperation(data, offset)
            case Fail(e) => ApplyOperation(h, data, offset, message) == Fail(e)
            case Ok(op, next) => ApplyOperation(h, data, offset, message) == Ok(Execute(h, op, message), next)
  {
    var r := ReadOperation(data, offset);
    if r.Ok? {
      OperationIsVerbatim(data, offset);
      if data[offset] in BINARY_OPS {
        ReadVaruintPrefix(data, offset, offset + 1, r.next);
        var start := ReadVaruint(data, offset + 1).next;
        assert r.value[start - offset..] == data[start..r.next];
      }
    }
  }

  // ----- the meaning of a tree -----

  /** `_decode_calendar_uri`. */
  function CalendarUri(h: Host, payload: Bytes): Option<string> {
    match ReadVaruint(payload, 0)
    case Fail(_) => None
    case Ok(length, start) => if start + length > |payload| then None else h.utf8(payload[start..start + length])
  }

  /** Entering a node: a message that is a transaction names the transaction for everything below. */
  function Enter(h: Host, st: State): State {
    if st.transactionId.Some? then st
    else
      match OutputScripts(st.message)
      case None => st
      case Some(scripts) =>
        st.(transactionId := Some(Reverse(h.sha256(h.sha256(st.message)))), opReturn := OpReturn(scripts))
  }

  datatype Report = Report(anchors: seq<Anchor>, pending: seq<string>)

  const NOTHING := Report([], [])

  function Both(a: Report, b: Report): Report {
    Report(a.anchors + b.anchors, a.pending + b.pending)
  }

  /** A node reports what its items report in order; a calendar promise is in scope from there on. */
  function RunItems<A>(h: Host, items: seq<Item<A>>, st: State): (Report, State)
    decreases items, 0
  {
    if items == [] then (NOTHING, st)
    else
      var last := |items| - 1;
      var before := RunItems(h, items[..last], st);
      var r := RunItem(h, items[last], before.1);
      (Both(before.0, r.0), r.1)
  }

  function RunItem<A>(h: Host, item: Item<A>, st: State): (Report, State)
    decreases item, 1
  {
    match item
    case Attestation(tag, payload) =>
      if tag == BITCOIN then (BitcoinReport(payload, st), st)
      else if tag == PENDING then
        match CalendarUri(h, payload)
        case None => (NOTHING, st)
        case Some(uri) =>
          if uri in st.calendars then (NOTHING, st)
          else (Report([], [uri]), st.(calendars := st.calendars + [uri]))
      else (NOTHING, st)
    case Branch(operation, child) =>
      match Execute(h, operation, st.message)
      case None => (NOTHING, st)
      case Some(message) => (RunItems(h, child.items, Enter(h, st.(message := message))).0, st)
  }

  function BitcoinReport(payload: Bytes, st: State): Report {
    match ReadVaruint(payload, 0)
    case Fail(_) => NOTHING
    case Ok(height, _) =>
      Report([Anchor(height, Reverse(st.message), st.transactionId, st.opReturn, st.calendars)], [])
  }

  /** Every Bitcoin payload below starts with a readable height. */
  predicate HeightsDecode<A>(items: seq<Item<A>>) {
    forall i :: 0 <= i < |items| ==> HeightDecodes(items[i])
  }

  predicate HeightDecodes<A>(item: Item<A>) {
    match item
    case Attestation(tag, payload) => tag == BITCOIN ==> ReadVaruint(payload, 0).Ok?
    case Branch(_, child) => HeightsDecode(child.items)
  }

  // ----- the streaming executor -----

  /** The two lists that `_walk` appends to. */
  class Recorder {
    var anchors: seq<Anchor>
    var pending: seq<string>

    constructor ()
      ensures anchors == [] && pending == []
    {
      anchors, pending := [], [];
    }

    function Recorded(): Report
      reads this
    {
      Report(anchors, pending)
    }
  }

  lemma RunSnoc<A>(h: Host, items: seq<Item<A>>, item: Item<A>, st: State)
    ensures var before := RunItems(h, items, st);
            var r := RunItem(h, item, before.1);
            RunItems(h, items + [item], st) == (Both(before.0, r.0), r.1)
    ensures HeightsDecode(items + [item]) <==> HeightsDecode(items) && HeightDecodes(item)
  {
    assert (items + [item])[..|items|] == items;
    assert (items + [item])[|items|] == item;
  }

  lemma BothAssociative(a: Report, b: Report, c: Report)
    ensures Both(Both(a, b), c) == Both(a, Both(b, c))
    ensures Both(a, NOTHING) == a
  {
  }

  /** What walking must do, given what building answers: it succeeds exactly when the tree parses and
      all its heights decode, and then it stops at the same offset. */
  ghost predicate WalksLike(r: Parsed<()>, built: Parsed<Timestamp>) {
    match built
    case Fail(_) => r.Fail?
    case Ok(t, next) => if HeightsDecode(t.items) then r == Ok((), next) else r.Fail?
  }

  /** An item that does not decode is in whatever the parse goes on to build. */
  lemma UndecodableStays(data: Bytes, start: nat, depth: nat, done: seq<Item<()>>, item: Item<()>, offset: nat)
    requires Continues(data, start, depth, done + [item], offset) && !HeightDecodes(item)
    ensures ParseItems(data, start, depth).Ok? ==> !HeightsDecode(ParseItems(data, start, depth).value)
  {
    var rest := ParseItems(data, offset, depth);
    if rest.Ok? {
      assert (done + [item] + rest.value)[|done|] == item;
    }
  }

  /** `_walk`: appends to the recorder what running the parsed tree reports. */
  method Walk(h: Host, data: Bytes, start: nat, entry: State, rec: Recorder, depth: nat) returns (r: Parsed<()>)
    modifies rec
    ensures WalksLike(r, ParseNode(data, start, depth))
    ensures r.Ok? ==>
              (var run := RunItems(h, ParseNode(data, start, depth).value.items, Enter(h, entry));
               rec.Recorded() == Both(old(rec.Recorded()), run.0))
    decreases |data| - start, 1
  {
    if depth > MAX_DEPTH {
      return Fail(ParseError);
    }
    ghost var before, first := rec.Recorded(), Enter(h, entry);
    var st := EnterNode(h, entry);
    var offset: nat := start;
    ghost var done: seq<Item<()>> := [];
    ContinueStart(data, start, depth);
    BothAssociative(before, NOTHING, NOTHING);
    hide ParseItem, ParseItems, Continues, RunItem, Enter, Both, HeightDecodes;
    while offset < |data| && data[offset] == FORK
      invariant start <= offset
      invariant Continues(data, start, depth, done, offset) && HeightsDecode(done)
      invariant st == RunItems(h, done, first).1
      invariant rec.Recorded() == Both(before, RunItems(h, done, first).0)
      decreases |data| - offset
    {
      ContinuePastFork(data, start, depth, done, offset);
      var w, st' := WalkItem(h, data, offset + 1, st, rec, depth);
      if w.Fail? {
        ghost var item := ParseItem(data, offset + 1, depth);
        if item.Ok? {
          UndecodableStays(data, start, depth, done, item.value, item.next);
        }
        return Fail(ParseError);
      }
      var item := ParseItem(data, offset + 1, depth).value;
      RunSnoc(h, done, item, first);
      BothAssociative(before, RunItems(h, done, first).0, RunItem(h, item, st).0);
      st, offset, done := st', w.next, done + [item];
    }
    ContinueToLast(data, start, depth, done, offset);
    if offset >= |data| {
      return Fail(ParseError);
    }
    ghost var last := ParseItem(data, offset, depth);
    if last.Ok? {
      RunSnoc(h, done, last.value, first);
    }
    var w, _ := WalkItem(h, data, offset, st, rec, depth);
    if w.Fail? {
      return Fail(ParseError);
    }
    BothAssociative(before, RunItems(h, done, first).0, RunItem(h, last.value, st).0);
    return Ok((), w.next);
  }

  /** The transaction test at the top of `_walk`. */
  method EnterNode(h: Host, entry: State) returns (st: State)
    ensures st == Enter(h, entry)
  {
    st := entry;
    if st.transactionId.None? {
      var scripts := Deserialize(st.message);
      if scripts.Some? {
        st := st.(transactionId := Some(Reverse(h.sha256(h.sha256(st.message)))), opReturn := OpReturn(scripts.value));
      }
    }
  }

  /** `_walk_branch`: one attestation, or one operation and the tree below it. */
  method WalkItem(h: Host, data: Bytes, offset: nat, st: State, rec: Recorder, depth: nat)
    returns (r: Parsed<()>, after: State)
    modifies rec
    ensures match ParseItem(data, offset, depth)
            case Fail(_) => r.Fail?
            case Ok(item, next) => if HeightDecodes(item) then r == Ok((), next) else r.Fail?
    ensures r.Ok? ==>
              (var run := RunItem(h, ParseItem(data, offset, depth).value, st);
               rec.Recorded() == Both(old(rec.Recorded()), run.0) && after == run.1)
    decreases |data| - offset, 0
  {
    after := st;
    if offset >= |data| {
      return Fail(ForkAtEnd), st;
    }
    if data[offset] == 0 {
      r, after := WalkAttestation(h, data, offset + 1, st, rec);
      return;
    }
    ApplyIsReadThenExecute(h, data, offset, st.message);
    var applied := ApplyOperation(h, data, offset, st.message);
    if applied.Fail? {
      return Fail(applied.error), st;
    }
    if applied.value.None? {
      r := SkipSubtree(h, data, applied.next, depth + 1);
      BothAssociative(rec.Recorded(), NOTHING, NOTHING);
    } else {
      r := Walk(h, data, applied.next, st.(message := applied.value.value), rec, depth + 1);
    }
  }

  method WalkAttestation(h: Host, data: Bytes, offset: nat, st: State, rec: Recorder)
    returns (r: Parsed<()>, after: State)
    modifies rec
    ensures match ReadAttestation(data, offset)
            case Fail(_) => r.Fail?
            case Ok(item, next) => if HeightDecodes(item) then r == Ok((), next) else r.Fail?
    ensures r.Ok? ==>
              (var run := RunItem(h, ReadAttestation(data, offset).value, st);
               rec.Recorded() == Both(old(rec.Recorded()), run.0) && after == run.1)
  {
    after := st;
    var a := ReadAttestation(data, offset);
    if a.Fail? {
      return Fail(a.error), st;
    }
    BothAssociative(rec.Recorded(), NOTHING, NOTHING);
    if a.value.tag == BITCOIN {
      var height := ReadVaruintLoop(a.value.payload, 0);
      if height.Fail? {
        return Fail(height.error), st;
      }
      rec.anchors := rec.anchors
        + [Anchor(height.value, Reverse(st.message), st.transactionId, st.opReturn, st.calendars)];
    } else if a.value.tag == PENDING {
      var uri := CalendarUri(h, a.value.payload);
      if uri.Some? && uri.value !in st.calendars {
        rec.pending := rec.pending + [uri.value];
        after := st.(calendars := st.calendars + [uri.value]);
      }
    }
    r := Ok((), a.next);
  }

  /** `_skip_subtree`: walks on with a throw-away state and throw-away lists. */
  method SkipSubtree(h: Host, data: Bytes, start: nat, depth: nat) returns (r: Parsed<()>)
    ensures WalksLike(r, ParseNode(data, start, depth))
    decreases |data| - start, 2
  {
    var discarded := new Recorder();
    r := Walk(h, data, start, State([], [], None, None), discarded, depth);
  }
}
