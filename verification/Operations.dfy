/** What each operation does to a message, byte by byte. */
module Operations {
  import opened Wire
  import opened Tree
  import opened Anchors

  lemma {:induction false} ReverseAt(b: Bytes, k: nat)
    requires k < |b|
    ensures Reverse(b)[k] == b[|b| - 1 - k]
    decreases |b|
  {
    if k < |b| - 1 {
      ReverseAt(b[1..], k);
    }
  }

  /** The value of a lower-case hexadecimal digit. */
  predicate IsDigit(c: byte, value: nat) {
    (0x30 <= c <= 0x39 && value == c - 0x30) || (0x61 <= c <= 0x66 && value == c - 0x57)
  }

  /** Hexadecimal text has two digits for each byte, the high one first. */
  lemma {:induction false} HexlifyAt(b: Bytes)
    ensures |Hexlify(b)| == 2 * |b|
    ensures forall k :: 0 <= k < |b| ==> IsDigit(Hexlify(b)[2 * k], b[k] / 16) && IsDigit(Hexlify(b)[2 * k + 1], b[k] % 16)
    decreases |b|
  {
    if b != [] {
      HexlifyAt(b[1..]);
      var text, rest := Hexlify(b), Hexlify(b[1..]);
      assert text == [HexDigit(b[0] / 16), HexDigit(b[0] % 16)] + rest;
      forall k | 0 <= k < |b| ensures IsDigit(text[2 * k], b[k] / 16) && IsDigit(text[2 * k + 1], b[k] % 16) {
        if k > 0 {
          assert text[2 * k] == rest[2 * (k - 1)] && text[2 * k + 1] == rest[2 * (k - 1) + 1] && b[k] == b[1..][k - 1];
        }
      }
    }
  }

  /** The argument of a binary operation: its last bytes, as many as its length says, however that is spelled. */
  lemma ArgumentIsTail(op: Bytes)
    requires WellFormedOperation(op) && op[0] in BINARY_OPS
    ensures var n := ReadVaruint(op, 1).value; n <= |op| && Argument(op) == op[|op| - n..] && |Argument(op)| == n
  {
  }

  /** What a well-formed operation makes of a message, by its tag. */
  ghost predicate Makes(h: Host, op: Bytes, message: Bytes, result: Bytes)
    requires WellFormedOperation(op)
  {
    match op[0]
    case 0xf0 => |result| == |message| + ReadVaruint(op, 1).value && message <= result
                 && result[|message|..] == op[|op| - ReadVaruint(op, 1).value..]
    case 0xf1 => |result| == |message| + ReadVaruint(op, 1).value && result[ReadVaruint(op, 1).value..] == message
                 && result[..ReadVaruint(op, 1).value] == op[|op| - ReadVaruint(op, 1).value..]
    case 0xf2 => |result| == |message| && forall k :: 0 <= k < |message| ==> result[k] == message[|message| - 1 - k]
    case 0xf3 => |result| == 2 * |message|
                 && forall k :: 0 <= k < |message| ==>
                      IsDigit(result[2 * k], message[k] / 16) && IsDigit(result[2 * k + 1], message[k] % 16)
    case 0x02 => result == h.sha1(message)
    case 0x08 => result == h.sha256(message)
    case 0x03 => h.ripemd160(message) == Some(result)
    case _ => false
  }

  /** Executing gives exactly that, and nothing where no result is possible. */
  lemma ExecuteExactly(h: Host, op: Bytes, message: Bytes, result: Bytes)
    requires WellFormedOperation(op)
    ensures Execute(h, op, message) == Some(result) <==> Makes(h, op, message, result)
  {
    if op[0] in BINARY_OPS {
      ArgumentIsTail(op);
      var n := ReadVaruint(op, 1).value;
      var argument := op[|op| - n..];
      assert op[0] == 0xf0 && Makes(h, op, message, result) ==> result == message + argument by {
        assert message <= result ==> result == message + result[|message|..];
      }
      assert op[0] == 0xf1 && Makes(h, op, message, result) ==> result == argument + message by {
        assert n <= |result| ==> result == result[..n] + result[n..];
      }
    } else if op[0] == 0xf2 {
      forall k | 0 <= k < |message| ensures Reverse(message)[k] == message[|message| - 1 - k] {
        ReverseAt(message, k);
      }
      assert Makes(h, op, message, result) ==> result == Reverse(message);
    } else if op[0] == 0xf3 {
      HexlifyAt(message);
      var text := Hexlify(message);
      if Makes(h, op, message, result) {
        SameText(message, result, text);
      }
    }
  }

  lemma SameText(b: Bytes, x: Bytes, y: Bytes)
    requires |x| == |y| == 2 * |b|
    requires forall k :: 0 <= k < |b| ==> IsDigit(x[2 * k], b[k] / 16) && IsDigit(x[2 * k + 1], b[k] % 16)
    requires forall k :: 0 <= k < |b| ==> IsDigit(y[2 * k], b[k] / 16) && IsDigit(y[2 * k + 1], b[k] % 16)
    ensures x == y
  {
    forall i | 0 <= i < |x| ensures x[i] == y[i] {
      var k := i / 2;
      assert i == 2 * k || i == 2 * k + 1;
      assert IsDigit(x[2 * k], b[k] / 16) && IsDigit(y[2 * k + 1], b[k] % 16);
    }
  }

  /** A calendar's address is read from behind its length, and is none when the payload is too short. */
  lemma UriIsRead(h: Host, length: nat, rest: Bytes)
    ensures CalendarUri(h, EncodeVaruint(length) + rest) == if length <= |rest| then h.utf8(rest[..length]) else None
  {
    var size := EncodeVaruint(length);
    var payload := size + rest;
    assert payload[0..0 + |size|] == size;
    ReadUndoesEncode(payload, 0, length);
    assert length <= |rest| ==> payload[|size|..|size| + length] == rest[..length];
  }
}
