/** The tree-building parser of `proof_tree.py` as functions on bytes, and its relation to printing. */
module Grammar {
  import opened Wire
  import opened Tree

  const MAX_DEPTH: nat := 256

  function ReadOperation(data: Bytes, offset: nat): (r: Parsed<Bytes>)
    ensures r.Ok? ==> offset < r.next <= |data|
    ensures r.Fail? ==> r.error == ParseError
  {
    if offset >= |data| then Fail(ParseError)
    else if data[offset] in UNARY_OPS then Ok([data[offset]], offset + 1)
    else if data[offset] in BINARY_OPS then
      match ReadVaruint(data, offset + 1)
      case Fail(e) => Fail(e)
      case Ok(length, start) =>
        if start + length > |data| then Fail(ParseError)
        else Ok(data[offset..start + length], start + length)
    else Fail(ParseError)
  }

  function ReadAttestation(data: Bytes, offset: nat): (r: Parsed<Item<()>>)
    ensures r.Ok? ==> offset + 8 < r.next <= |data| && r.value.Attestation?
    ensures r.Fail? ==> r.error == ParseError
  {
    if offset + 8 > |data| then Fail(ParseError)
    else
      match ReadVaruint(data, offset + 8)
      case Fail(e) => Fail(e)
      case Ok(length, start) =>
        if start + length > |data| then Fail(ParseError)
        else Ok(Attestation(data[offset..offset + 8], data[start..start + length]), start + length)
  }

  function ParseNode(data: Bytes, offset: nat, depth: nat): (r: Parsed<Timestamp>)
    ensures r.Ok? ==> offset < r.next <= |data| && depth <= MAX_DEPTH
    decreases |data| - offset, 2
  {
    if depth > MAX_DEPTH then Fail(ParseError)
    else
      match ParseItems(data, offset, depth)
      case Fail(e) => Fail(e)
      case Ok(items, next) => Ok(Tree((), items), next)
  }

  function ParseItems(data: Bytes, offset: nat, depth: nat): (r: Parsed<seq<Item<()>>>)
    ensures r.Ok? ==> offset < r.next <= |data| && r.value != []
    decreases |data| - offset, 1
  {
    if offset >= |data| then Fail(Truncated)
    else if data[offset] == FORK then
      match ParseItem(data, offset + 1, depth)
      case Fail(e) => Fail(e)
      case Ok(item, next) =>
        match ParseItems(data, next, depth)
        case Fail(e) => Fail(e)
        case Ok(rest, end) => Ok([item] + rest, end)
    else
      match ParseItem(data, offset, depth)
      case Fail(e) => Fail(e)
      case Ok(item, next) => Ok([item], next)
  }

  function ParseItem(data: Bytes, offset: nat, depth: nat): (r: Parsed<Item<()>>)
    ensures r.Ok? ==> offset < r.next <= |data|
    decreases |data| - offset, 0
  {
    if offset >= |data| then Fail(ForkAtEnd)
    else if data[offset] == 0 then ReadAttestation(data, offset + 1)
    else
      match ReadOperation(data, offset)
      case Fail(e) => Fail(e)
      case Ok(operation, next) =>
        match ParseNode(data, next, depth + 1)
        case Fail(e) => Fail(e)
        case Ok(child, end) => Ok(Branch(operation, child), end)
  }

  // ----- the fork marker that nothing follows -----

  /** How reading goes on `data` and on `data` with a fork marker after it: the same when it succeeds; and it ends in
      an index error with the marker exactly when it is truncated without. */
  ghost predicate InStep<T>(data: Bytes, r: Parsed<T>, r': Parsed<T>) {
    if r.Ok? then r' == r
    else (r' == Fail(ForkAtEnd) <==> r == Fail(Truncated)) && (r'.Ok? ==> r'.next == |data| + 1)
  }

  lemma {:induction false} VaruintInStep(data: Bytes, offset: nat)
    ensures ReadVaruint(data + [FORK], offset) == ReadVaruint(data, offset)
    decreases |data| - offset
  {
    if offset < |data| && data[offset] >= 128 {
      VaruintInStep(data, offset + 1);
    } else if offset == |data| {
      assert ReadVaruint(data + [FORK], offset + 1).Fail?;
    }
  }

  lemma OperationInStep(data: Bytes, offset: nat)
    ensures InStep(data, ReadOperation(data, offset), ReadOperation(data + [FORK], offset))
  {
    VaruintInStep(data, offset + 1);
    var r := ReadOperation(data, offset);
    if r.Ok? {
      assert (data + [FORK])[offset..r.next] == data[offset..r.next];
    }
  }

  lemma AttestationInStep(data: Bytes, offset: nat)
    ensures InStep(data, ReadAttestation(data, offset), ReadAttestation(data + [FORK], offset))
  {
    VaruintInStep(data, offset + 8);
    if ReadAttestation(data, offset).Ok? {
      var r := ReadVaruint(data, offset + 8);
      assert (data + [FORK])[offset..offset + 8] == data[offset..offset + 8];
      assert (data + [FORK])[r.next..r.next + r.value] == data[r.next..r.next + r.value];
    }
  }

  lemma {:induction false} NodeInStep(data: Bytes, offset: nat, depth: nat)
    requires offset <= |data|
    ensures InStep(data, ParseNode(data, offset, depth), ParseNode(data + [FORK], offset, depth))
    decreases |data| - offset, 2
  {
    ItemsInStep(data, offset, depth);
  }

  lemma {:induction false} ItemsInStep(data: Bytes, offset: nat, depth: nat)
    requires offset <= |data|
    ensures InStep(data, ParseItems(data, offset, depth), ParseItems(data + [FORK], offset, depth))
    decreases |data| - offset, 1
  {
    if offset < |data| {
      var at := if data[offset] == FORK then offset + 1 else offset;
      ItemInStep(data, at, depth);
      var item := ParseItem(data, at, depth);
      if item.Ok? && data[offset] == FORK {
        ItemsInStep(data, item.next, depth);
      }
    }
  }

  lemma {:induction false} ItemInStep(data: Bytes, offset: nat, depth: nat)
    requires offset <= |data|
    ensures InStep(data, ParseItem(data, offset, depth), ParseItem(data + [FORK], offset, depth))
    decreases |data| - offset, 0
  {
    if offset < |data| {
      if data[offset] == 0 {
        AttestationInStep(data, offset + 1);
      } else {
        OperationInStep(data, offset);
        var operation := ReadOperation(data, offset);
        if operation.Ok? {
          NodeInStep(data, operation.next, depth + 1);
        }
        assert ParseNode(data + [FORK], |data| + 1, depth + 1) != Fail(ForkAtEnd);
      }
    }
  }

  lemma {:induction false} ForkAtEndInItems(data: Bytes, offset: nat, depth: nat)
    requires ParseItems(data, offset, depth) == Fail(ForkAtEnd)
    ensures offset < |data| && data[|data| - 1] == FORK
    decreases |data| - offset, 1
  {
    if data[offset] == FORK && ParseItem(data, offset + 1, depth).Ok? {
      ForkAtEndInItems(data, ParseItem(data, offset + 1, depth).next, depth);
    } else if data[offset] == FORK {
      if offset + 1 < |data| {
        ForkAtEndInItem(data, offset + 1, depth);
      }
    } else {
      ForkAtEndInItem(data, offset, depth);
    }
  }

  lemma {:induction false} ForkAtEndInItem(data: Bytes, offset: nat, depth: nat)
    requires offset < |data| && ParseItem(data, offset, depth) == Fail(ForkAtEnd)
    ensures data[|data| - 1] == FORK
    decreases |data| - offset, 0
  {
    ForkAtEndInItems(data, ReadOperation(data, offset).next, depth + 1);
  }

  /** The last byte is a fork marker, and what is before it is truncated where the marker stands. */
  predicate EndsInFork(data: Bytes, offset: nat, depth: nat) {
    offset < |data| && data[|data| - 1] == FORK && ParseNode(data[..|data| - 1], offset, depth) == Fail(Truncated)
  }

  /** The builder ends in an index error, which is not a parse error, exactly on truncated input that has one fork
      marker more. */
  lemma ForkAtEndExactly(data: Bytes, offset: nat, depth: nat)
    ensures ParseNode(data, offset, depth) == Fail(ForkAtEnd) <==> EndsInFork(data, offset, depth)
  {
    if ParseNode(data, offset, depth) == Fail(ForkAtEnd) {
      ForkAtEndInItems(data, offset, depth);
    }
    if offset < |data| && data[|data| - 1] == FORK {
      NodeInStep(data[..|data| - 1], offset, depth);
      assert data[..|data| - 1] + [FORK] == data;
    }
  }

  // ----- printing then parsing -----

  lemma ReadPrintedOperation(data: Bytes, offset: nat, op: Bytes)
    requires WellFormedOperation(op) && At(data, offset, op)
    ensures ReadOperation(data, offset) == Ok(op, offset + |op|)
  {
    AtFirst(data, offset, op);
    if op[0] in BINARY_OPS {
      ReadVaruintShift(op, 1, data, offset);
    } else {
      assert op == [op[0]];
    }
  }

  /** A varuint reads the same in any longer string that contains it. */
  lemma {:induction false} ReadVaruintShift(part: Bytes, at: nat, data: Bytes, offset: nat)
    requires At(data, offset, part) && ReadVaruint(part, at).Ok?
    ensures ReadVaruint(data, offset + at)
         == Ok(ReadVaruint(part, at).value, offset + ReadVaruint(part, at).next)
    decreases |part| - at
  {
    assert part[at] == data[offset..offset + |part|][at] == data[offset + at];
    if part[at] >= 128 {
      ReadVaruintShift(part, at + 1, data, offset);
    }
  }

  lemma ReadPrintedAttestation(data: Bytes, offset: nat, tag: Bytes, payload: Bytes)
    requires |tag| == 8 && At(data, offset, [0] + tag + EncodeVaruint(|payload|) + payload)
    ensures ReadAttestation(data, offset + 1)
         == Ok(Attestation(tag, payload), offset + |[0] + tag + EncodeVaruint(|payload|) + payload|)
  {
    var length := EncodeVaruint(|payload|);
    AtConcat(data, offset, [0] + tag + length, payload);
    AtConcat(data, offset, [0] + tag, length);
    AtConcat(data, offset, [0], tag);
    ReadUndoesEncode(data, offset + 9, |payload|);
  }

  lemma FirstPrintedByte<A>(item: Item<A>)
    requires WellFormedItem(item)
    ensures PrintItem(item) != [] && PrintItem(item)[0] != FORK
    ensures item.Branch? ==> PrintItem(item)[0] == item.operation[0] != 0
  {
  }

  /** Printed bytes parse back to the same value, exactly when they nest no deeper than the limit. */
  lemma {:induction false} ParsePrintedItem<A>(item: Item<A>, data: Bytes, offset: nat, depth: nat)
    requires WellFormedItem(item) && depth <= MAX_DEPTH && At(data, offset, PrintItem(item))
    ensures if depth + HeightOfItem(item) <= MAX_DEPTH
            then ParseItem(data, offset, depth) == Ok(EraseItem(item), offset + |PrintItem(item)|)
            else ParseItem(data, offset, depth) == Fail(ParseError)
    decreases item, 1
  {
    hide ReadOperation, ReadAttestation, ReadVaruint, EncodeVaruint, WellFormedOperation, ParseItems, PrintItems, At;
    FirstPrintedByte(item);
    AtFirst(data, offset, PrintItem(item));
    match item
    case Attestation(tag, payload) =>
      ReadPrintedAttestation(data, offset, tag, payload);
    case Branch(operation, child) =>
      AtConcat(data, offset, operation, PrintItems(child.items));
      ReadPrintedOperation(data, offset, operation);
      if depth < MAX_DEPTH {
        ParsePrintedItems(child.items, data, offset + |operation|, depth + 1);
      }
  }

  lemma {:induction false} ParsePrintedItems<A>(items: seq<Item<A>>, data: Bytes, offset: nat, depth: nat)
    requires WellFormedItems(items) && depth <= MAX_DEPTH && At(data, offset, PrintItems(items))
    ensures if depth + HeightOfItems(items) <= MAX_DEPTH
            then ParseItems(data, offset, depth) == Ok(EraseItems(items), offset + |PrintItems(items)|)
            else ParseItems(data, offset, depth) == Fail(ParseError)
    decreases items, 0
  {
    hide ParseItem, PrintItem, EraseItem, HeightOfItem, WellFormedItem, At;
    FirstPrintedByte(items[0]);
    AtFirst(data, offset, PrintItems(items));
    AtInside(data, offset, PrintItems(items));
    if |items| == 1 {
      ParsePrintedItem(items[0], data, offset, depth);
      assert EraseItems(items) == [EraseItem(items[0])];
      assert HeightOfItems(items[1..]) == 0;
    } else {
      var first, rest := PrintItem(items[0]), PrintItems(items[1..]);
      AtConcat(data, offset, [FORK] + first, rest);
      AtConcat(data, offset, [FORK], first);
      ParsePrintedItem(items[0], data, offset + 1, depth);
      ParsePrintedItems(items[1..], data, offset + 1 + |first|, depth);
    }
  }

  // ----- parsing then printing -----

  /** Every attestation length field in the items read at `offset` is a minimal varuint. */
  predicate MinimalItems(data: Bytes, offset: nat, depth: nat)
    requires ParseItems(data, offset, depth).Ok?
    decreases |data| - offset, 1
  {
    if data[offset] == FORK then
      && MinimalItem(data, offset + 1, depth)
      && MinimalItems(data, ParseItem(data, offset + 1, depth).next, depth)
    else
      MinimalItem(data, offset, depth)
  }

  predicate MinimalItem(data: Bytes, offset: nat, depth: nat)
    requires ParseItem(data, offset, depth).Ok?
    decreases |data| - offset, 0
  {
    if data[offset] == 0 then MinimalVaruint(data, offset + 9, ReadVaruint(data, offset + 9).next)
    else
      assert ParseNode(data, ReadOperation(data, offset).next, depth + 1).Ok?;
      MinimalItems(data, ReadOperation(data, offset).next, depth + 1)
  }

  lemma OperationIsVerbatim(data: Bytes, offset: nat)
    requires ReadOperation(data, offset).Ok?
    ensures var r := ReadOperation(data, offset);
            r.value == data[offset..r.next] && WellFormedOperation(r.value)
  {
    var r := ReadOperation(data, offset);
    assert r.value == data[offset..r.next];
    if data[offset] in BINARY_OPS {
      ReadVaruintPrefix(data, offset, offset + 1, r.next);
    }
  }

  /** A varuint lying inside a slice reads the same there. */
  lemma {:induction false} ReadVaruintPrefix(data: Bytes, start: nat, offset: nat, end: nat)
    requires ReadVaruint(data, offset).Ok? && start <= offset && ReadVaruint(data, offset).next <= end <= |data|
    ensures ReadVaruint(data[start..end], offset - start)
         == Ok(ReadVaruint(data, offset).value, ReadVaruint(data, offset).next - start)
    decreases |data| - offset
  {
    if data[offset] >= 128 {
      ReadVaruintPrefix(data, start, offset + 1, end);
    }
  }

  /** Printing gives back `data[offset..end]` when `minimal`, and something strictly shorter if not. */
  ghost predicate Reprints(data: Bytes, offset: nat, end: nat, printed: Bytes, minimal: bool) {
    if minimal then At(data, offset, printed) && offset + |printed| == end
    else |printed| < end - offset
  }

  lemma ReprintConcat(data: Bytes, offset: nat, mid: nat, end: nat, a: Bytes, b: Bytes, m: bool, n: bool)
    requires Reprints(data, offset, mid, a, m) && Reprints(data, mid, end, b, n)
    ensures Reprints(data, offset, end, a + b, m && n)
  {
    AtConcat(data, offset, a, b);
  }

  lemma PrintParsedAttestation(data: Bytes, offset: nat)
    requires offset < |data| && data[offset] == 0 && ReadAttestation(data, offset + 1).Ok?
    ensures var r := ReadAttestation(data, offset + 1);
            && WellFormedItem(r.value)
            && Reprints(data, offset, r.next, PrintItem(r.value),
                        MinimalVaruint(data, offset + 9, ReadVaruint(data, offset + 9).next))
  {
    var r, length := ReadAttestation(data, offset + 1), ReadVaruint(data, offset + 9);
    var minimal := MinimalVaruint(data, offset + 9, length.next);
    var tag, payload := r.value.tag, r.value.payload;
    EncodeUndoesRead(data, offset + 9);
    AtConcat(data, offset, [0], tag);
    ReprintConcat(data, offset, offset + 9, length.next, [0] + tag, EncodeVaruint(length.value), true, minimal);
    ReprintConcat(data, offset, length.next, r.next, [0] + tag + EncodeVaruint(length.value), payload, minimal, true);
  }

  lemma {:induction false} PrintParsedItem(data: Bytes, offset: nat, depth: nat)
    requires depth <= MAX_DEPTH && ParseItem(data, offset, depth).Ok?
    ensures var r := ParseItem(data, offset, depth);
            && WellFormedItem(r.value) && depth + HeightOfItem(r.value) <= MAX_DEPTH
            && Reprints(data, offset, r.next, PrintItem(r.value), MinimalItem(data, offset, depth))
    decreases |data| - offset, 0
  {
    hide ReadVaruint, ReadOperation, ReadAttestation, WellFormedOperation, PrintItems, MinimalItems, ParseItems;
    if data[offset] == 0 {
      PrintParsedAttestation(data, offset);
    } else {
      OperationIsVerbatim(data, offset);
      var r, op := ParseItem(data, offset, depth), ReadOperation(data, offset);
      var child := ParseNode(data, op.next, depth + 1);
      PrintParsedItems(data, op.next, depth + 1);
      ReprintConcat(data, offset, op.next, r.next, op.value, PrintItems(child.value.items), true,
                    MinimalItems(data, op.next, depth + 1));
    }
  }

  lemma {:induction false} PrintParsedItems(data: Bytes, offset: nat, depth: nat)
    requires depth <= MAX_DEPTH && ParseItems(data, offset, depth).Ok?
    ensures var r := ParseItems(data, offset, depth);
            && WellFormedItems(r.value) && depth + HeightOfItems(r.value) <= MAX_DEPTH
            && Reprints(data, offset, r.next, PrintItems(r.value), MinimalItems(data, offset, depth))
    decreases |data| - offset, 1
  {
    hide ParseItem, PrintItem, MinimalItem, HeightOfItem, WellFormedItem;
    if data[offset] == FORK {
      var first := ParseItem(data, offset + 1, depth);
      var rest := ParseItems(data, first.next, depth);
      PrintParsedItem(data, offset + 1, depth);
      PrintParsedItems(data, first.next, depth);
      PrintedCons(first.value, rest.value);
      var m, n := MinimalItem(data, offset + 1, depth), MinimalItems(data, first.next, depth);
      ReprintConcat(data, offset, offset + 1, first.next, [FORK], PrintItem(first.value), true, m);
      ReprintConcat(data, offset, first.next, rest.next, [FORK] + PrintItem(first.value), PrintItems(rest.value), m, n);
    } else {
      PrintParsedItem(data, offset, depth);
      PrintedOne(ParseItem(data, offset, depth).value);
    }
  }

  lemma PrintedCons<A>(item: Item<A>, rest: seq<Item<A>>)
    requires rest != []
    ensures PrintItems([item] + rest) == [FORK] + PrintItem(item) + PrintItems(rest)
    ensures WellFormedItem(item) && WellFormedItems(rest) ==> WellFormedItems([item] + rest)
    ensures HeightOfItems([item] + rest)
         == if HeightOfItem(item) > HeightOfItems(rest) then HeightOfItem(item) else HeightOfItems(rest)
  {
    assert ([item] + rest)[1..] == rest;
  }

  lemma PrintedOne<A>(item: Item<A>)
    ensures PrintItems([item]) == PrintItem(item)
    ensures HeightOfItems([item]) == HeightOfItem(item)
    ensures WellFormedItem(item) ==> WellFormedItems([item])
  {
    assert [item][1..] == [];
  }

  // ----- the parsing loop -----

  /** The items read from `start` are `done` followed by those read from `offset`. */
  ghost predicate Continues(data: Bytes, start: nat, depth: nat, done: seq<Item<()>>, offset: nat) {
    match ParseItems(data, offset, depth)
    case Fail(e) => ParseItems(data, start, depth) == Fail(e)
    case Ok(rest, end) => ParseItems(data, start, depth) == Ok(done + rest, end)
  }

  lemma ContinueStart(data: Bytes, start: nat, depth: nat)
    ensures Continues(data, start, depth, [], start)
  {
    match ParseItems(data, start, depth)
    case Fail(e) =>
    case Ok(rest, end) => assert [] + rest == rest;
  }

  lemma ContinuePastFork(data: Bytes, start: nat, depth: nat, done: seq<Item<()>>, offset: nat)
    requires Continues(data, start, depth, done, offset) && offset < |data| && data[offset] == FORK
    ensures match ParseItem(data, offset + 1, depth)
            case Fail(e) => ParseItems(data, start, depth) == Fail(e)
            case Ok(item, next) => Continues(data, start, depth, done + [item], next)
  {
    match ParseItem(data, offset + 1, depth)
    case Fail(e) =>
    case Ok(item, next) =>
      match ParseItems(data, next, depth)
      case Fail(e) =>
      case Ok(rest, end) => assert done + ([item] + rest) == done + [item] + rest;
  }

  lemma ContinueToLast(data: Bytes, start: nat, depth: nat, done: seq<Item<()>>, offset: nat)
    requires Continues(data, start, depth, done, offset) && !(offset < |data| && data[offset] == FORK)
    ensures if offset >= |data| then ParseItems(data, start, depth) == Fail(Truncated)
            else match ParseItem(data, offset, depth)
                 case Fail(e) => ParseItems(data, start, depth) == Fail(e)
                 case Ok(item, next) => ParseItems(data, start, depth) == Ok(done + [item], next)
  {
  }
}
