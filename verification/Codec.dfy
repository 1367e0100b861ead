/** Detached proof files: a verbatim header (magic, version, file hash) and one timestamp. */
module Codec {
  import opened Wire
  import opened Tree
  import opened Grammar

  datatype Proof<A> = Proof(header: Bytes, digest: Bytes, root: Tree<A>)

  const MAGIC: Bytes :=
    [0x00, 0x4f, 0x70, 0x65, 0x6e, 0x54, 0x69, 0x6d, 0x65, 0x73, 0x74, 0x61, 0x6d, 0x70, 0x73,
     0x00, 0x00, 0x50, 0x72, 0x6f, 0x6f, 0x66, 0x00, 0xbf, 0x89, 0xe2, 0xe8, 0x84, 0xe8, 0x92, 0x94]

  const SHA1_TAG: byte := 0x02
  const SHA256_TAG: byte := 0x08

  function DigestLength(tag: byte): Option<nat> {
    if tag == SHA1_TAG then Some(20) else if tag == SHA256_TAG then Some(32) else None
  }

  /** The file digest that starts at the hash tag standing at `offset`. */
  function ReadDigest(data: Bytes, offset: nat): (r: Parsed<Bytes>)
    ensures r.Ok? ==> offset < r.next <= |data|
    ensures r.Fail? ==> r.error == ParseError
  {
    if offset >= |data| then Fail(ParseError)
    else
      match DigestLength(data[offset])
      case None => Fail(ParseError)
      case Some(length) =>
        if offset + 1 + length > |data| then Fail(ParseError)
        else Ok(data[offset + 1..offset + 1 + length], offset + 1 + length)
  }

  /** The header as `parse_proof` reads it: the version is any varuint that decodes to one. */
  function ReadHeader(data: Bytes): (r: Parsed<Bytes>)
    ensures r.Ok? ==> r.next <= |data|
    ensures r.Fail? ==> r.error == ParseError
  {
    if !(MAGIC <= data) then Fail(ParseError)
    else
      match ReadVaruint(data, |MAGIC|)
      case Fail(e) => Fail(e)
      case Ok(version, next) => if version != 1 then Fail(ParseError) else ReadDigest(data, next)
  }

  function ParseProof(data: Bytes): (r: Parsed<Proof<()>>)
    ensures r.Ok? ==> r.next == |data|
  {
    match ReadHeader(data)
    case Fail(e) => Fail(e)
    case Ok(digest, start) =>
      match ParseNode(data, start, 0)
      case Fail(e) => Fail(e)
      case Ok(root, end) =>
        if end != |data| then Fail(ParseError) else Ok(Proof(data[..start], digest, root), end)
  }

  const MAX_RESPONSE_BYTES: nat := 10_000

  /** A calendar's answer: a bare timestamp filling the whole body. */
  function ParseResponse(data: Bytes): Parsed<Timestamp> {
    if data == [] || |data| > MAX_RESPONSE_BYTES then Fail(ParseError)
    else
      match ParseNode(data, 0, 0)
      case Fail(e) => Fail(e)
      case Ok(root, end) => if end != |data| then Fail(ParseError) else Ok(root, end)
  }

  function PrintProof<A>(p: Proof<A>): Bytes {
    p.header + Print(p.root)
  }

  function EraseProof<A>(p: Proof<A>): Proof<()> {
    Proof(p.header, p.digest, Erase(p.root))
  }

  /** A proof whose header parses by itself and whose tree is well formed. */
  predicate WellFormedProof<A>(p: Proof<A>) {
    ReadHeader(p.header) == Ok(p.digest, |p.header|) && WellFormed(p.root)
  }

  // ----- timestamps -----

  /** A printed timestamp parses back to itself exactly when it nests within the limit. */
  lemma ParseUndoesPrint<A>(t: Tree<A>, data: Bytes, offset: nat, depth: nat)
    requires WellFormed(t) && At(data, offset, Print(t))
    ensures if depth + Height(t) <= MAX_DEPTH
            then ParseNode(data, offset, depth) == Ok(Erase(t), offset + |Print(t)|)
            else ParseNode(data, offset, depth) == Fail(ParseError)
  {
    if depth <= MAX_DEPTH {
      ParsePrintedItems(t.items, data, offset, depth);
    }
  }

  /** Printing a parsed timestamp gives back its bytes exactly when every attestation length in them
      is minimally encoded; otherwise it gives back something shorter. */
  lemma PrintUndoesParse(data: Bytes, offset: nat, depth: nat)
    requires ParseNode(data, offset, depth).Ok?
    ensures var r := ParseNode(data, offset, depth);
            && WellFormed(r.value) && depth + Height(r.value) <= MAX_DEPTH
            && (Print(r.value) == data[offset..r.next] <==> MinimalItems(data, offset, depth))
            && (!MinimalItems(data, offset, depth) ==> |Print(r.value)| < r.next - offset)
  {
    PrintParsedItems(data, offset, depth);
  }

  // ----- whole proofs -----

  lemma HeaderIsSelfContained(header: Bytes, digest: Bytes, body: Bytes)
    requires ReadHeader(header) == Ok(digest, |header|)
    ensures ReadHeader(header + body) == Ok(digest, |header|)
  {
    var data := header + body;
    assert At(data, 0, header);
    assert MAGIC <= header ==> MAGIC <= data;
    ReadVaruintShift(header, |MAGIC|, data, 0);
    var start := ReadVaruint(header, |MAGIC|).next;
    assert data[start + 1..|header|] == header[start + 1..|header|];
  }

  lemma HeaderPrefix(data: Bytes)
    requires ReadHeader(data).Ok?
    ensures var r := ReadHeader(data); ReadHeader(data[..r.next]) == Ok(r.value, r.next)
  {
    var r := ReadHeader(data);
    var header := data[..r.next];
    var start := ReadVaruint(data, |MAGIC|).next;
    assert MAGIC <= header;
    ReadVaruintPrefix(data, 0, |MAGIC|, r.next);
    assert header == data[0..r.next];
    assert data[start + 1..r.next] == header[start + 1..r.next];
  }

  lemma ParsedProofIsWellFormed(data: Bytes)
    requires ParseProof(data).Ok?
    ensures WellFormedProof(ParseProof(data).value) && Height(ParseProof(data).value.root) <= MAX_DEPTH
  {
    HeaderPrefix(data);
    PrintUndoesParse(data, ReadHeader(data).next, 0);
  }

  lemma ParseUndoesPrintProof<A>(p: Proof<A>)
    requires WellFormedProof(p)
    ensures if Height(p.root) <= MAX_DEPTH
            then ParseProof(PrintProof(p)) == Ok(EraseProof(p), |PrintProof(p)|)
            else ParseProof(PrintProof(p)) == Fail(ParseError)
  {
    var data := PrintProof(p);
    HeaderIsSelfContained(p.header, p.digest, Print(p.root));
    assert At(data, |p.header|, Print(p.root));
    ParseUndoesPrint(p.root, data, |p.header|, 0);
    assert data[..|p.header|] == p.header;
  }

  /** "`serialize` on the result reproduces `data` exactly": precisely when every attestation length
      is minimal. */
  lemma PrintUndoesParseProof(data: Bytes)
    requires ParseProof(data).Ok?
    ensures PrintProof(ParseProof(data).value) == data <==> MinimalItems(data, ReadHeader(data).next, 0)
  {
    var start := ReadHeader(data).next;
    var p := ParseProof(data).value;
    PrintUndoesParse(data, start, 0);
    assert data == data[..start] + data[start..];
    if PrintProof(p) == data {
      assert Print(p.root) == PrintProof(p)[start..] == data[start..];
    }
  }

  /** Whatever the encoding was, one round through the printer reaches a fixed point. */
  lemma ReparseIsStable(data: Bytes)
    requires ParseProof(data).Ok?
    ensures var p := ParseProof(data).value;
            ParseProof(PrintProof(p)) == Ok(p, |PrintProof(p)|)
  {
    var p := ParseProof(data).value;
    ParsedProofIsWellFormed(data);
    ParseUndoesPrintProof(p);
    EraseValueItems(p.root.items);
  }

  lemma {:induction false} EraseValueItems(items: seq<Item<()>>)
    ensures EraseItems(items) == items
    decreases items
  {
    forall i | 0 <= i < |items| ensures EraseItem(items[i]) == items[i] {
      if items[i].Branch? {
        EraseValueItems(items[i].child.items);
        assert items[i].child.site == ();
      }
    }
  }

  /** The smallest proof whose one attestation spells its empty payload's length in two bytes. */
  function LongLengthProof(): Bytes {
    MAGIC + [1, SHA1_TAG] + Zeros(20) + [0] + Zeros(8) + [0x80, 0x00]
  }

  function Zeros(n: nat): (z: Bytes)
    ensures |z| == n && forall i :: 0 <= i < n ==> z[i] == 0
  {
    seq(n, _ => 0)
  }

  /** It parses, and printing it back does not reproduce it. */
  lemma LongLengthIsRewritten()
    ensures ParseProof(LongLengthProof()).Ok?
    ensures PrintProof(ParseProof(LongLengthProof()).value) != LongLengthProof()
  {
    var d := LongLengthProof();
    assert MAGIC <= d;
    assert d[31] == 1 && d[32] == 2 && |d| == 64;
    assert d[53] == 0 && d[62] == 0x80 && d[63] == 0;
    assert ReadVaruint(d, 31) == Ok(1, 32);
    assert ReadDigest(d, 32).Ok? && ReadDigest(d, 32).next == 53;
    assert ReadVaruint(d, 63) == Ok(0, 64);
    assert ReadVaruint(d, 62) == Ok(0, 64);
    assert ReadAttestation(d, 54).Ok?;
    assert ParseItem(d, 53, 0).Ok?;
    assert ParseItems(d, 53, 0).Ok?;
    assert !MinimalItem(d, 53, 0);
    PrintUndoesParseProof(d);
  }

  // ----- input that ends in a bare fork marker -----

  /** A response makes the parser run off its end exactly when it is a truncated timestamp and one fork marker. */
  lemma ForkEndsResponse(body: Bytes)
    ensures ParseResponse(body) == Fail(ForkAtEnd) <==> |body| <= MAX_RESPONSE_BYTES && EndsInFork(body, 0, 0)
    ensures ParseResponse([FORK]) == Fail(ForkAtEnd)
  {
    ForkAtEndExactly(body, 0, 0);
    assert ParseItem([FORK], 1, 0) == Fail(ForkAtEnd);
    assert ParseItems([FORK], 0, 0) == Fail(ForkAtEnd);
  }

  lemma SameHeader(data: Bytes, more: Bytes)
    requires ReadHeader(data).Ok?
    ensures ReadHeader(data + more) == ReadHeader(data)
  {
    hide ReadHeader;
    var start := ReadHeader(data).next;
    HeaderPrefix(data);
    HeaderIsSelfContained(data[..start], ReadHeader(data).value, data[start..] + more);
    assert data[..start] + (data[start..] + more) == data + more;
  }

  lemma HeaderWithin(data: Bytes, n: nat)
    requires ReadHeader(data).Ok? && ReadHeader(data).next <= n <= |data|
    ensures ReadHeader(data[..n]) == ReadHeader(data)
  {
    hide ReadHeader;
    var start := ReadHeader(data).next;
    HeaderPrefix(data);
    HeaderIsSelfContained(data[..start], ReadHeader(data).value, data[start..n]);
    assert data[..start] + data[start..n] == data[..n];
  }

  /** So does a proof, exactly when without its last byte, a fork marker, it is truncated. */
  lemma ForkEndsProof(data: Bytes)
    ensures ParseProof(data) == Fail(ForkAtEnd)
       <==> data != [] && data[|data| - 1] == FORK && ParseProof(data[..|data| - 1]) == Fail(Truncated)
  {
    hide ReadHeader, ParseNode;
    if ParseProof(data) == Fail(ForkAtEnd) {
      var start := ReadHeader(data).next;
      ForkAtEndExactly(data, start, 0);
      HeaderWithin(data, |data| - 1);
    }
    if data != [] && data[|data| - 1] == FORK && ParseProof(data[..|data| - 1]) == Fail(Truncated) {
      var init := data[..|data| - 1];
      SameHeader(init, [FORK]);
      assert init + [FORK] == data;
      ForkAtEndExactly(data, ReadHeader(data).next, 0);
    }
  }
}
