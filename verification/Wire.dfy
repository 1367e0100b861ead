/** Byte strings, the outcomes of a read, and the base-128 variable-length integers (section 7.6
    of DWARF 5) that the OpenTimestamps format uses for every length. */
module Wire {

  type byte = x: int | 0 <= x < 256
  type Bytes = seq<byte>

  /** Why a read failed. `Truncated` is the parse error of a timestamp whose bytes are used up before its last item.
      `ForkAtEnd` is an 0xff fork marker with nothing after it: the skipping parser reports it as a parse error, the
      tree builder lets Python's IndexError escape. */
  datatype Error = ParseError | Truncated | ForkAtEnd

  /** A value together with the offset just after it, or a failure. */
  datatype Parsed<+T> = Ok(value: T, next: nat) | Fail(error: Error)

  datatype Option<+T> = None | Some(value: T)

  /** `part` stands in `data` at `offset`. */
  ghost predicate At(data: Bytes, offset: nat, part: Bytes) {
    offset + |part| <= |data| && data[offset..offset + |part|] == part
  }

  lemma AtConcat(data: Bytes, offset: nat, a: Bytes, b: Bytes)
    ensures At(data, offset, a + b) <==> At(data, offset, a) && At(data, offset + |a|, b)
  {
    if At(data, offset, a + b) {
      var whole := data[offset..offset + |a + b|];
      assert data[offset..offset + |a|] == whole[..|a|] == a;
      assert data[offset + |a|..offset + |a| + |b|] == whole[|a|..] == b;
    }
    if At(data, offset, a) && At(data, offset + |a|, b) {
      assert data[offset..offset + |a + b|]
          == data[offset..offset + |a|] + data[offset + |a|..offset + |a| + |b|];
    }
  }

  lemma AtInside(data: Bytes, offset: nat, part: Bytes)
    requires At(data, offset, part)
    ensures offset + |part| <= |data|
  {
  }

  lemma AtFirst(data: Bytes, offset: nat, part: Bytes)
    requires At(data, offset, part) && part != []
    ensures data[offset] == part[0]
  {
    assert data[offset..offset + |part|][0] == data[offset];
  }

  // ----- variable-length integers -----

  /** The number read at `offset`, low seven bits first. */
  function ReadVaruint(data: Bytes, offset: nat): (r: Parsed<nat>)
    ensures r.Ok? ==> offset < r.next <= |data|
    ensures r.Fail? ==> r.error == ParseError
    decreases |data| - offset
  {
    if offset >= |data| then Fail(ParseError)
    else if data[offset] < 128 then Ok(data[offset], offset + 1)
    else
      match ReadVaruint(data, offset + 1)
      case Fail(e) => Fail(e)
      case Ok(high, next) => Ok(data[offset] - 128 + 128 * high, next)
  }

  function EncodeVaruint(value: nat): (out: Bytes)
    ensures out != []
  {
    if value < 128 then [value] else [value % 128 + 128] + EncodeVaruint(value / 128)
  }

  /** The varuint occupying `data[start..end]` has no superfluous zero group at its end. */
  predicate MinimalVaruint(data: Bytes, start: nat, end: nat)
    requires start < end <= |data|
  {
    end == start + 1 || data[end - 1] != 0
  }

  lemma {:induction false} ReadUndoesEncode(data: Bytes, offset: nat, value: nat)
    requires At(data, offset, EncodeVaruint(value))
    ensures ReadVaruint(data, offset) == Ok(value, offset + |EncodeVaruint(value)|)
    decreases value
  {
    AtFirst(data, offset, EncodeVaruint(value));
    if value >= 128 {
      AtConcat(data, offset, [value % 128 + 128], EncodeVaruint(value / 128));
      ReadUndoesEncode(data, offset + 1, value / 128);
    }
  }

  /** A minimal encoding is exactly what `EncodeVaruint` prints; any other is strictly longer. */
  lemma {:induction false} EncodeUndoesRead(data: Bytes, offset: nat)
    requires ReadVaruint(data, offset).Ok?
    ensures var r := ReadVaruint(data, offset);
            if MinimalVaruint(data, offset, r.next)
            then data[offset..r.next] == EncodeVaruint(r.value)
            else |EncodeVaruint(r.value)| < r.next - offset
    decreases |data| - offset
  {
    var r := ReadVaruint(data, offset);
    if data[offset] < 128 {
      assert data[offset..r.next] == [data[offset]];
    } else {
      EncodeUndoesRead(data, offset + 1);
      var high := ReadVaruint(data, offset + 1).value;
      assert r.value / 128 == high && r.value % 128 + 128 == data[offset];
      if high == 0 {
        ZeroIsNotLonger(data, offset + 1);
      } else {
        assert r.value >= 128;
        assert data[offset..r.next] == [data[offset]] + data[offset + 1..r.next];
      }
    }
  }

  /** Reading zero means the last group is zero. */
  lemma {:induction false} ZeroIsNotLonger(data: Bytes, offset: nat)
    requires ReadVaruint(data, offset).Ok? && ReadVaruint(data, offset).value == 0
    ensures data[ReadVaruint(data, offset).next - 1] == 0
    decreases |data| - offset
  {
    if data[offset] >= 128 {
      ZeroIsNotLonger(data, offset + 1);
    }
  }

  function Pow2(n: nat): (p: nat)
    ensures p > 0
  {
    if n == 0 then 1 else 2 * Pow2(n - 1)
  }

  lemma Pow2Plus7(n: nat)
    ensures Pow2(n + 7) == 128 * Pow2(n)
  {
    assert Pow2(n + 7) == 2 * Pow2(n + 6) == 4 * Pow2(n + 5) == 8 * Pow2(n + 4);
    assert Pow2(n + 4) == 2 * Pow2(n + 3) == 4 * Pow2(n + 2) == 8 * Pow2(n + 1);
  }

  /** The read begun at `start` is `value` so far and continues at `offset` with this weight. */
  ghost predicate Resumes(data: Bytes, start: nat, value: nat, weight: nat, offset: nat) {
    match ReadVaruint(data, offset)
    case Fail(e) => ReadVaruint(data, start) == Fail(e)
    case Ok(high, next) => ReadVaruint(data, start) == Ok(value + weight * high, next)
  }

  lemma Distribute(weight: nat, low: nat, high: nat)
    ensures low * weight >= 0
    ensures weight * (low + 128 * high) == low * weight + 128 * weight * high
  {
    assert weight * (low + 128 * high) == weight * low + weight * (128 * high);
  }

  lemma ResumeGroup(data: Bytes, start: nat, value: nat, weight: nat, offset: nat, group: nat)
    requires offset < |data| && Resumes(data, start, value, weight, offset)
    requires group == data[offset] % 128 * weight
    ensures data[offset] < 128 ==> ReadVaruint(data, start) == Ok(value + group, offset + 1)
    ensures data[offset] >= 128 ==> Resumes(data, start, value + group, 128 * weight, offset + 1)
  {
    var rest := ReadVaruint(data, offset + 1);
    if data[offset] < 128 {
      assert weight * data[offset] == group;
    } else if rest.Ok? {
      Distribute(weight, data[offset] - 128, rest.value);
    }
  }

  /** `_read_varuint`: the loop over a growing shift. `value |= group << shift` only ever sets bits
      above those already set, so it is written as an addition. */
  method ReadVaruintLoop(data: Bytes, start: nat) returns (r: Parsed<nat>)
    ensures r == ReadVaruint(data, start)
  {
    var value: nat, shift: nat, offset: nat := 0, 0, start;
    while true
      invariant Resumes(data, start, value, Pow2(shift), offset)
      decreases |data| - offset
    {
      if offset >= |data| {
        return Fail(ParseError);
      }
      var b := data[offset];
      Distribute(Pow2(shift), b % 128, 0);
      var group := b % 128 * Pow2(shift);
      ResumeGroup(data, start, value, Pow2(shift), offset, group);
      Pow2Plus7(shift);
      value := value + group;
      offset := offset + 1;
      if b < 128 {
        return Ok(value, offset);
      }
      shift := shift + 7;
    }
  }

  /** `_encode_varuint`: seven bits at a time, low first, into a growing buffer. */
  method EncodeVaruintLoop(value: nat) returns (out: Bytes)
    ensures out == EncodeVaruint(value)
  {
    out := [];
    var left := value;
    while true
      invariant out + EncodeVaruint(left) == EncodeVaruint(value)
      decreases left
    {
      var b := left % 128;
      left := left / 128;
      if left != 0 {
        assert out + ([b + 128] + EncodeVaruint(left)) == out + [b + 128] + EncodeVaruint(left);
        out := out + [b + 128];
      } else {
        return out + [b];
      }
    }
  }
}
