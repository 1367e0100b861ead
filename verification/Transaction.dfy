/** Recognising a message as a serialized legacy Bitcoin transaction: version, inputs, outputs, lock time, with
    compact sizes before every list and script. A reader that only skips is given meaning by recursion, and
    recognises exactly the output scripts of every transaction that is printed and given to it. */
module Transaction {
  import opened Wire

  const MAX_TRANSACTION_BYTES: nat := 1_000_000

  function LittleEndian(bytes: Bytes): nat {
    if bytes == [] then 0 else bytes[0] + 256 * LittleEndian(bytes[1..])
  }

  /** A compact-size integer; every failure is the ValueError that makes the message "not one". */
  function ReadCompactSize(data: Bytes, offset: nat): (r: Parsed<nat>)
    ensures r.Ok? ==> offset < r.next <= |data|
  {
    if offset >= |data| then Fail(ParseError)
    else if data[offset] < 0xfd then Ok(data[offset], offset + 1)
    else
      var width := if data[offset] == 0xfd then 2 else if data[offset] == 0xfe then 4 else 8;
      if offset + 1 + width > |data| then Fail(ParseError)
      else Ok(LittleEndian(data[offset + 1..offset + 1 + width]), offset + 1 + width)
  }

  /** The offset after `n` inputs: an outpoint, a sized script and a sequence number each. */
  function SkipInputs(data: Bytes, offset: nat, n: nat): (end: Option<nat>)
    ensures end.Some? ==> n == 0 || end.value <= |data|
    decreases n
  {
    if n == 0 then Some(offset)
    else
      match ReadCompactSize(data, offset + 36)
      case Fail(_) => None
      case Ok(length, next) =>
        if next + length + 4 > |data| then None else SkipInputs(data, next + length + 4, n - 1)
  }

  /** The scripts of `n` outputs (a value and a sized script each) and the offset after them. */
  function ReadOutputs(data: Bytes, offset: nat, n: nat): Option<(seq<Bytes>, nat)>
    decreases n
  {
    if n == 0 then Some(([], offset))
    else
      match ReadCompactSize(data, offset + 8)
      case Fail(_) => None
      case Ok(length, next) =>
        if next + length > |data| then None
        else
          match ReadOutputs(data, next + length, n - 1)
          case None => None
          case Some(rest) => Some(([data[next..next + length]] + rest.0, rest.1))
  }

  /** `_deserialize_transaction`: the output scripts, if the whole buffer is one transaction. */
  function OutputScripts(data: Bytes): Option<seq<Bytes>> {
    if !(10 <= |data| <= MAX_TRANSACTION_BYTES) then None
    else
      match ReadCompactSize(data, 4)
      case Fail(_) => None
      case Ok(inputs, afterCount) =>
        if inputs == 0 then None
        else
          match SkipInputs(data, afterCount, inputs)
          case None => None
          case Some(afterInputs) =>
            match ReadCompactSize(data, afterInputs)
            case Fail(_) => None
            case Ok(outputs, start) =>
              match ReadOutputs(data, start, outputs)
              case None => None
              case Some(r) => if r.1 + 4 == |data| then Some(r.0) else None
  }

  /** What one script pushes after OP_RETURN. */
  function PushedData(script: Bytes): Option<Bytes> {
    if |script| < 2 || script[0] != 0x6a then None
    else if 1 <= script[1] <= 75 then NonEmpty(Slice(script, 2, script[1]))
    else if script[1] == 0x4c && |script| >= 3 then NonEmpty(Slice(script, 3, script[2]))
    else None
  }

  function NonEmpty(b: Bytes): Option<Bytes> {
    if b == [] then None else Some(b)
  }

  /** Python's `s[from:from + length]`, which stops at the end. */
  function Slice(s: Bytes, from: nat, length: nat): Bytes
    requires from <= |s|
  {
    if from + length <= |s| then s[from..from + length] else s[from..]
  }

  /** `_extract_op_return`: the data pushed by the first output that pushes any. */
  function OpReturn(scripts: seq<Bytes>): Option<Bytes> {
    if scripts == [] then None
    else if PushedData(scripts[0]).Some? then PushedData(scripts[0])
    else OpReturn(scripts[1..])
  }

  /** `_deserialize_transaction`. */
  method Deserialize(data: Bytes) returns (r: Option<seq<Bytes>>)
    ensures r == OutputScripts(data)
  {
    if !(10 <= |data| <= MAX_TRANSACTION_BYTES) {
      return None;
    }
    var inputs: Parsed<nat> := ReadCompactSize(data, 4);
    if inputs.Fail? || inputs.value == 0 {
      return None;
    }
    var afterInputs := SkipInputsLoop(data, inputs.next, inputs.value);
    if afterInputs.None? {
      return None;
    }
    var outputs: Parsed<nat> := ReadCompactSize(data, afterInputs.value);
    if outputs.Fail? {
      return None;
    }
    var scripts := ReadOutputsLoop(data, outputs.next, outputs.value);
    return if scripts.None? || scripts.value.1 + 4 != |data| then None else Some(scripts.value.0);
  }

  method SkipInputsLoop(data: Bytes, start: nat, count: nat) returns (end: Option<nat>)
    ensures end == SkipInputs(data, start, count)
  {
    var offset: nat := start;
    for i := 0 to count
      invariant SkipInputs(data, offset, count - i) == SkipInputs(data, start, count)
    {
      var length: Parsed<nat> := ReadCompactSize(data, offset + 36);
      if length.Fail? {
        return None;
      }
      offset := length.next + length.value + 4;
      if offset > |data| {
        return None;
      }
    }
    return Some(offset);
  }

  /** The outputs read from `start` are `done` followed by `n` more read from `offset`. */
  ghost predicate OutputsContinue(data: Bytes, start: nat, count: nat, done: seq<Bytes>, offset: nat, n: nat) {
    match ReadOutputs(data, offset, n)
    case None => ReadOutputs(data, start, count) == None
    case Some(rest) => ReadOutputs(data, start, count) == Some((done + rest.0, rest.1))
  }

  lemma OutputsStep(data: Bytes, start: nat, count: nat, done: seq<Bytes>, offset: nat, n: nat)
    requires n > 0 && OutputsContinue(data, start, count, done, offset, n)
    ensures var length := ReadCompactSize(data, offset + 8);
            if length.Fail? || length.next + length.value > |data| then ReadOutputs(data, start, count) == None
            else OutputsContinue(data, start, count, done + [data[length.next..length.next + length.value]],
                                 length.next + length.value, n - 1)
  {
    var length := ReadCompactSize(data, offset + 8);
    if length.Ok? && length.next + length.value <= |data| {
      var script := data[length.next..length.next + length.value];
      var tail := ReadOutputs(data, length.next + length.value, n - 1);
      assert tail.Some? ==> done + ([script] + tail.value.0) == done + [script] + tail.value.0;
    }
  }

  method ReadOutputsLoop(data: Bytes, start: nat, count: nat) returns (r: Option<(seq<Bytes>, nat)>)
    ensures r == ReadOutputs(data, start, count)
  {
    var scripts: seq<Bytes>, offset: nat := [], start;
    assert OutputsContinue(data, start, count, scripts, offset, count) by {
      var all := ReadOutputs(data, start, count);
      assert all.Some? ==> [] + all.value.0 == all.value.0;
    }
    for i := 0 to count
      invariant OutputsContinue(data, start, count, scripts, offset, count - i)
    {
      OutputsStep(data, start, count, scripts, offset, count - i);
      var length: Parsed<nat> := ReadCompactSize(data, offset + 8);
      if length.Fail? || length.next + length.value > |data| {
        return None;
      }
      scripts, offset := scripts + [data[length.next..length.next + length.value]], length.next + length.value;
    }
    assert scripts + [] == scripts;
    return Some((scripts, offset));
  }

  // ----- exactly the legacy transactions are recognised -----

  /** These bytes are a compact size of this number, of whatever width. */
  predicate SizeOf(size: Bytes, n: nat) {
    || (|size| == 1 && size[0] == n < 0xfd)
    || (|size| == 3 && size[0] == 0xfd && LittleEndian(size[1..]) == n)
    || (|size| == 5 && size[0] == 0xfe && LittleEndian(size[1..]) == n)
    || (|size| == 9 && size[0] == 0xff && LittleEndian(size[1..]) == n)
  }

  datatype Input = Input(outpoint: Bytes, size: Bytes, script: Bytes, sequence: Bytes)
  datatype Output = Output(amount: Bytes, size: Bytes, script: Bytes)
  datatype Tx = Tx(version: Bytes, inputCount: Bytes, inputs: seq<Input>, outputCount: Bytes, outputs: seq<Output>, lockTime: Bytes)

  function PrintInput(i: Input): Bytes {
    i.outpoint + i.size + i.script + i.sequence
  }

  function PrintInputs(inputs: seq<Input>): Bytes {
    if inputs == [] then [] else PrintInput(inputs[0]) + PrintInputs(inputs[1..])
  }

  function PrintOutput(o: Output): Bytes {
    o.amount + o.size + o.script
  }

  function PrintOutputs(outputs: seq<Output>): Bytes {
    if outputs == [] then [] else PrintOutput(outputs[0]) + PrintOutputs(outputs[1..])
  }

  function PrintTx(tx: Tx): Bytes {
    tx.version + tx.inputCount + PrintInputs(tx.inputs) + tx.outputCount + PrintOutputs(tx.outputs) + tx.lockTime
  }

  predicate ValidInput(i: Input) {
    |i.outpoint| == 36 && SizeOf(i.size, |i.script|) && |i.sequence| == 4
  }

  predicate ValidOutput(o: Output) {
    |o.amount| == 8 && SizeOf(o.size, |o.script|)
  }

  /** A legacy transaction with at least one input. */
  predicate ValidTx(tx: Tx) {
    && |tx.version| == 4 && |tx.lockTime| == 4 && tx.inputs != []
    && SizeOf(tx.inputCount, |tx.inputs|) && SizeOf(tx.outputCount, |tx.outputs|)
    && (forall i :: 0 <= i < |tx.inputs| ==> ValidInput(tx.inputs[i]))
    && (forall i :: 0 <= i < |tx.outputs| ==> ValidOutput(tx.outputs[i]))
  }

  function Scripts(outputs: seq<Output>): (s: seq<Bytes>)
    ensures |s| == |outputs| && forall i :: 0 <= i < |s| ==> s[i] == outputs[i].script
  {
    seq(|outputs|, i requires 0 <= i < |outputs| => outputs[i].script)
  }

  lemma ReadSize(data: Bytes, offset: nat, size: Bytes, n: nat)
    requires At(data, offset, size) && SizeOf(size, n)
    ensures ReadCompactSize(data, offset) == Ok(n, offset + |size|)
  {
    AtFirst(data, offset, size);
    assert |size| > 1 ==> data[offset + 1..offset + |size|] == size[1..];
    hide LittleEndian;
  }

  lemma SizeRead(data: Bytes, offset: nat)
    requires ReadCompactSize(data, offset).Ok?
    ensures var r := ReadCompactSize(data, offset); SizeOf(data[offset..r.next], r.value)
  {
    var r := ReadCompactSize(data, offset);
    var size := data[offset..r.next];
    assert size[0] == data[offset] && size[1..] == data[offset + 1..r.next];
    hide LittleEndian;
  }

  // ----- what is printed is recognised -----

  lemma SkipPrintedInput(data: Bytes, offset: nat, i: Input, more: nat)
    requires At(data, offset, PrintInput(i)) && ValidInput(i)
    ensures SkipInputs(data, offset, more + 1) == SkipInputs(data, offset + |PrintInput(i)|, more)
  {
    AtConcat(data, offset, i.outpoint + i.size + i.script, i.sequence);
    AtConcat(data, offset, i.outpoint + i.size, i.script);
    AtConcat(data, offset, i.outpoint, i.size);
    ReadSize(data, offset + 36, i.size, |i.script|);
    hide ReadCompactSize, SizeOf;
  }

  lemma {:induction false} ReadPrintedInputs(data: Bytes, offset: nat, inputs: seq<Input>)
    requires At(data, offset, PrintInputs(inputs)) && forall i :: 0 <= i < |inputs| ==> ValidInput(inputs[i])
    ensures SkipInputs(data, offset, |inputs|) == Some(offset + |PrintInputs(inputs)|)
    decreases |inputs|
  {
    hide PrintInput, At, ValidInput;
    if inputs != [] {
      hide SkipInputs;
      AtConcat(data, offset, PrintInput(inputs[0]), PrintInputs(inputs[1..]));
      SkipPrintedInput(data, offset, inputs[0], |inputs| - 1);
      ReadPrintedInputs(data, offset + |PrintInput(inputs[0])|, inputs[1..]);
    }
  }

  lemma ReadNextOutput(data: Bytes, offset: nat, o: Output, more: nat)
    requires At(data, offset, PrintOutput(o)) && ValidOutput(o)
    requires ReadOutputs(data, offset + |PrintOutput(o)|, more).Some?
    ensures var rest := ReadOutputs(data, offset + |PrintOutput(o)|, more).value;
            ReadOutputs(data, offset, more + 1) == Some(([o.script] + rest.0, rest.1))
  {
    AtConcat(data, offset, o.amount + o.size, o.script);
    AtConcat(data, offset, o.amount, o.size);
    ReadSize(data, offset + 8, o.size, |o.script|);
    hide ReadCompactSize, SizeOf;
  }

  lemma {:induction false} ReadPrintedOutputs(data: Bytes, offset: nat, outputs: seq<Output>)
    requires At(data, offset, PrintOutputs(outputs)) && forall i :: 0 <= i < |outputs| ==> ValidOutput(outputs[i])
    ensures ReadOutputs(data, offset, |outputs|) == Some((Scripts(outputs), offset + |PrintOutputs(outputs)|))
    decreases |outputs|
  {
    hide PrintOutput, At, ValidOutput;
    if outputs != [] {
      hide ReadOutputs;
      var o := outputs[0];
      AtConcat(data, offset, PrintOutput(o), PrintOutputs(outputs[1..]));
      ReadPrintedOutputs(data, offset + |PrintOutput(o)|, outputs[1..]);
      ReadNextOutput(data, offset, o, |outputs| - 1);
      assert [o.script] + Scripts(outputs[1..]) == Scripts(outputs);
    }
  }

  lemma PrintedLength(tx: Tx)
    requires ValidTx(tx)
    ensures |PrintTx(tx)| >= 10
  {
    assert ValidInput(tx.inputs[0]) && |PrintInput(tx.inputs[0])| >= 40;
  }

  /** Every serialized legacy transaction within the size limit is recognised, with exactly its output scripts. */
  lemma RecognisesTransactions(tx: Tx)
    requires ValidTx(tx) && |PrintTx(tx)| <= MAX_TRANSACTION_BYTES
    ensures OutputScripts(PrintTx(tx)) == Some(Scripts(tx.outputs))
  {
    hide OutputScripts, PrintInputs, PrintOutputs, SkipInputs, ReadOutputs, ReadCompactSize, SizeOf, ValidInput, ValidOutput;
    var data := PrintTx(tx);
    var ins, outs := PrintInputs(tx.inputs), PrintOutputs(tx.outputs);
    var nIn, nOut := tx.inputCount, tx.outputCount;
    assert At(data, 0, data);
    AtConcat(data, 0, tx.version + nIn + ins + nOut + outs, tx.lockTime);
    AtConcat(data, 0, tx.version + nIn + ins + nOut, outs);
    AtConcat(data, 0, tx.version + nIn + ins, nOut);
    AtConcat(data, 0, tx.version + nIn, ins);
    AtConcat(data, 0, tx.version, nIn);
    PrintedLength(tx);
    ReadSize(data, 4, nIn, |tx.inputs|);
    ReadPrintedInputs(data, 4 + |nIn|, tx.inputs);
    ReadSize(data, |tx.version + nIn + ins|, nOut, |tx.outputs|);
    ReadPrintedOutputs(data, |tx.version + nIn + ins + nOut|, tx.outputs);
    ScriptsOf(data, |tx.inputs|, 4 + |nIn|, |tx.version + nIn + ins|, |tx.outputs|,
              |tx.version + nIn + ins + nOut|, Scripts(tx.outputs));
  }

  lemma ScriptsOf(data: Bytes, inputs: nat, a: nat, b: nat, outputs: nat, c: nat, scripts: seq<Bytes>)
    requires 10 <= |data| <= MAX_TRANSACTION_BYTES && inputs > 0
    requires ReadCompactSize(data, 4) == Ok(inputs, a) && SkipInputs(data, a, inputs) == Some(b)
    requires ReadCompactSize(data, b) == Ok(outputs, c)
    requires ReadOutputs(data, c, outputs) == Some((scripts, |data| - 4))
    ensures OutputScripts(data) == Some(scripts)
  {
  }

  // ----- and nothing else is -----

  lemma InputAt(data: Bytes, offset: nat) returns (i: Input)
    requires var length := ReadCompactSize(data, offset + 36); length.Ok? && length.next + length.value + 4 <= |data|
    ensures var length := ReadCompactSize(data, offset + 36);
            ValidInput(i) && PrintInput(i) == data[offset..length.next + length.value + 4]
  {
    var length := ReadCompactSize(data, offset + 36);
    SizeRead(data, offset + 36);
    var next := length.next + length.value;
    i := Input(data[offset..offset + 36], data[offset + 36..length.next], data[length.next..next], data[next..next + 4]);
    hide SizeOf, ReadCompactSize;
  }

  /** The inputs that were skipped. */
  lemma {:induction false} SkippedInputs(data: Bytes, offset: nat, n: nat) returns (inputs: seq<Input>)
    requires offset <= |data| && SkipInputs(data, offset, n).Some?
    ensures |inputs| == n && forall i :: 0 <= i < n ==> ValidInput(inputs[i])
    ensures var end := SkipInputs(data, offset, n).value;
            offset <= end <= |data| && PrintInputs(inputs) == data[offset..end]
    decreases n
  {
    if n == 0 {
      return [];
    }
    var length := ReadCompactSize(data, offset + 36);
    var next := length.next + length.value + 4;
    hide ReadCompactSize, ValidInput, PrintInput;
    var first := InputAt(data, offset);
    var rest := SkippedInputs(data, next, n - 1);
    inputs := [first] + rest;
    assert inputs[1..] == rest && PrintInputs(inputs) == PrintInput(first) + PrintInputs(rest);
  }

  lemma OutputAt(data: Bytes, offset: nat) returns (o: Output)
    requires var length := ReadCompactSize(data, offset + 8); length.Ok? && length.next + length.value <= |data|
    ensures var length := ReadCompactSize(data, offset + 8);
            && ValidOutput(o) && PrintOutput(o) == data[offset..length.next + length.value]
            && o.script == data[length.next..length.next + length.value]
  {
    var length := ReadCompactSize(data, offset + 8);
    SizeRead(data, offset + 8);
    var next := length.next + length.value;
    o := Output(data[offset..offset + 8], data[offset + 8..length.next], data[length.next..next]);
    hide SizeOf, ReadCompactSize;
  }

  /** The outputs that were read. */
  lemma {:induction false} OutputsRead(data: Bytes, offset: nat, n: nat) returns (outputs: seq<Output>)
    requires offset <= |data| && ReadOutputs(data, offset, n).Some?
    ensures |outputs| == n && forall i :: 0 <= i < n ==> ValidOutput(outputs[i])
    ensures var r := ReadOutputs(data, offset, n).value;
            offset <= r.1 <= |data| && PrintOutputs(outputs) == data[offset..r.1] && Scripts(outputs) == r.0
    decreases n
  {
    if n == 0 {
      return [];
    }
    var length := ReadCompactSize(data, offset + 8);
    var next := length.next + length.value;
    hide ReadCompactSize, ValidOutput, PrintOutput;
    var first := OutputAt(data, offset);
    var rest := OutputsRead(data, next, n - 1);
    outputs := [first] + rest;
    assert outputs[1..] == rest && PrintOutputs(outputs) == PrintOutput(first) + PrintOutputs(rest);
  }

  /** The transaction that a recognised message is. */
  lemma RecognisedTransaction(data: Bytes) returns (tx: Tx)
    requires OutputScripts(data).Some?
    ensures ValidTx(tx) && PrintTx(tx) == data && Scripts(tx.outputs) == OutputScripts(data).value
  {
    var count := ReadCompactSize(data, 4);
    var afterInputs := SkipInputs(data, count.next, count.value).value;
    var outCount := ReadCompactSize(data, afterInputs);
    var end := ReadOutputs(data, outCount.next, outCount.value).value.1;
    assert end + 4 == |data|;
    hide OutputScripts, ReadCompactSize, SkipInputs, ReadOutputs, SizeOf, ValidInput, ValidOutput;
    var inputs := SkippedInputs(data, count.next, count.value);
    var outputs := OutputsRead(data, outCount.next, outCount.value);
    SizeRead(data, 4);
    SizeRead(data, afterInputs);
    tx := Tx(data[..4], data[4..count.next], inputs, data[afterInputs..outCount.next], outputs, data[end..]);
    Pieces(data, 4, count.next, afterInputs, outCount.next, end);
  }

  lemma Pieces(data: Bytes, a: nat, b: nat, c: nat, d: nat, e: nat)
    requires a <= b <= c <= d <= e <= |data|
    ensures data[..a] + data[a..b] + data[b..c] + data[c..d] + data[d..e] + data[e..] == data
  {
  }

  /** A message is recognised exactly when the whole of it is a serialized legacy transaction within the size limit, in
      compact sizes of any width; and then with that transaction's output scripts. */
  lemma TransactionsExactly(data: Bytes, scripts: seq<Bytes>)
    ensures OutputScripts(data) == Some(scripts)
       <==> |data| <= MAX_TRANSACTION_BYTES
            && exists tx :: ValidTx(tx) && PrintTx(tx) == data && Scripts(tx.outputs) == scripts
  {
    if OutputScripts(data) == Some(scripts) {
      var tx := RecognisedTransaction(data);
    }
    if |data| <= MAX_TRANSACTION_BYTES
       && exists tx :: ValidTx(tx) && PrintTx(tx) == data && Scripts(tx.outputs) == scripts
    {
      var tx :| ValidTx(tx) && PrintTx(tx) == data && Scripts(tx.outputs) == scripts;
      RecognisesTransactions(tx);
    }
    hide ValidTx, PrintTx;
  }

  lemma {:induction false} SkipMore(data: Bytes, more: Bytes, offset: nat, n: nat)
    requires SkipInputs(data, offset, n).Some?
    ensures SkipInputs(data + more, offset, n) == SkipInputs(data, offset, n)
    decreases n
  {
    if n > 0 {
      var length := ReadCompactSize(data, offset + 36);
      SizeMore(data, more, offset + 36);
      SkipMore(data, more, length.next + length.value + 4, n - 1);
    }
  }

  lemma SizeMore(data: Bytes, more: Bytes, offset: nat)
    requires ReadCompactSize(data, offset).Ok?
    ensures ReadCompactSize(data + more, offset) == ReadCompactSize(data, offset)
  {
    var next := ReadCompactSize(data, offset).next;
    assert (data + more)[offset] == data[offset] && (data + more)[offset + 1..next] == data[offset + 1..next];
    hide LittleEndian;
  }

  lemma {:induction false} ReadMore(data: Bytes, more: Bytes, offset: nat, n: nat)
    requires ReadOutputs(data, offset, n).Some?
    ensures ReadOutputs(data + more, offset, n) == ReadOutputs(data, offset, n)
    decreases n
  {
    if n > 0 {
      var length := ReadCompactSize(data, offset + 8);
      SizeMore(data, more, offset + 8);
      var next := length.next + length.value;
      assert (data + more)[length.next..next] == data[length.next..next];
      ReadMore(data, more, next, n - 1);
    }
  }

  /** No message that starts with a transaction and goes on is one; so none is a transaction cut short. */
  lemma NoneIsAPrefix(data: Bytes, more: Bytes)
    requires OutputScripts(data).Some? && more != []
    ensures OutputScripts(data + more).None?
  {
    var count := ReadCompactSize(data, 4);
    var afterInputs := SkipInputs(data, count.next, count.value).value;
    var outCount := ReadCompactSize(data, afterInputs);
    SizeMore(data, more, 4);
    SkipMore(data, more, count.next, count.value);
    SizeMore(data, more, afterInputs);
    ReadMore(data, more, outCount.next, outCount.value);
    hide ReadCompactSize, SkipInputs, ReadOutputs;
  }

  // ----- the usual sizes -----

  function ToLittleEndian(n: nat, width: nat): (b: Bytes)
    ensures |b| == width
  {
    if width == 0 then [] else [n % 256] + ToLittleEndian(n / 256, width - 1)
  }

  /** The shortest compact size, which is what wallets write. */
  function CompactSize(n: nat): Bytes {
    if n < 0xfd then [n]
    else if n < 0x1_0000 then [0xfd] + ToLittleEndian(n, 2)
    else if n < 0x1_0000_0000 then [0xfe] + ToLittleEndian(n, 4)
    else [0xff] + ToLittleEndian(n, 8)
  }

  function Pow256(n: nat): nat {
    if n == 0 then 1 else 256 * Pow256(n - 1)
  }

  lemma {:induction false} LittleEndianInverse(n: nat, width: nat)
    requires n < Pow256(width)
    ensures LittleEndian(ToLittleEndian(n, width)) == n
  {
    if width > 0 {
      LittleEndianInverse(n / 256, width - 1);
      assert ToLittleEndian(n, width)[1..] == ToLittleEndian(n / 256, width - 1);
    }
  }

  /** It is one of the sizes that are read. */
  lemma UsualSize(n: nat)
    requires n < Pow256(8)
    ensures SizeOf(CompactSize(n), n)
  {
    assert Pow256(1) == 256 && Pow256(2) == 0x1_0000 && Pow256(3) == 256 * Pow256(2) && Pow256(4) == 0x1_0000_0000;
    if 0xfd <= n {
      var width := if n < 0x1_0000 then 2 else if n < 0x1_0000_0000 then 4 else 8;
      LittleEndianInverse(n, width);
      assert CompactSize(n)[1..] == ToLittleEndian(n, width);
    }
  }

  // ----- the data shown with a transaction -----

  /** A script that pushes these bytes behind OP_RETURN: as many as it says, or all there are if they are fewer. */
  predicate Pushes(script: Bytes, shown: Bytes) {
    && shown != [] && |script| >= 2 && script[0] == 0x6a
    && var start := if 1 <= script[1] <= 75 then 2 else 3;
       && ((script[1] == 0x4c && |script| >= 3) || 1 <= script[1] <= 75)
       && var n := script[start - 1];
          if start + n <= |script| then shown == script[start..start + n] else shown == script[start..]
  }

  /** The data shown is what the first output pushes that pushes anything. */
  lemma {:induction false} OpReturnExactly(scripts: seq<Bytes>, shown: Bytes)
    ensures OpReturn(scripts) == Some(shown)
       <==> exists k :: 0 <= k < |scripts| && Pushes(scripts[k], shown)
                        && forall i, other :: 0 <= i < k ==> !Pushes(scripts[i], other)
    decreases |scripts|
  {
    if scripts != [] {
      PushedExactly(scripts[0]);
      OpReturnExactly(scripts[1..], shown);
      hide Pushes, PushedData;
      assert forall i :: 0 <= i < |scripts| - 1 ==> scripts[1..][i] == scripts[i + 1];
      if k :| 0 <= k < |scripts[1..]| && Pushes(scripts[1..][k], shown)
              && forall i, other :: 0 <= i < k ==> !Pushes(scripts[1..][i], other)
      {
        assert Pushes(scripts[k + 1], shown);
        assert PushedData(scripts[0]).None? ==> forall i, other :: 0 <= i < k + 1 ==>
          (i > 0 ==> scripts[i] == scripts[1..][i - 1]) && !Pushes(scripts[i], other);
      }
      if k :| 0 <= k < |scripts| && Pushes(scripts[k], shown)
              && forall i, other :: 0 <= i < k ==> !Pushes(scripts[i], other)
      {
        if k > 0 {
          assert Pushes(scripts[1..][k - 1], shown);
          assert forall i, other :: 0 <= i < k - 1 ==> !Pushes(scripts[1..][i], other);
        }
      }
    }
  }

  lemma PushedExactly(script: Bytes)
    ensures forall shown :: PushedData(script) == Some(shown) <==> Pushes(script, shown)
    ensures PushedData(script).None? ==> forall shown :: !Pushes(script, shown)
  {
  }
}
