/** Consistent Overhead Byte Stuffing as codec.py writes it: two differently shaped loops. */
module Cobs {
  import opened Prelude

  datatype CobsError = EmptyFrame | UnexpectedZero | LengthExceedsFrame

  ghost predicate ZeroFree(s: bytes)
  {
    forall i :: 0 <= i < |s| ==> s[i] != 0
  }

  /** What the encoder still writes, given the open block and the bytes not yet read. */
  function EncodeFrom(block: bytes, data: bytes): bytes
    requires |block| <= 253
    decreases |data|
  {
    if data == [] then [|block| + 1] + block
    else if data[0] == 0 then [|block| + 1] + block + EncodeFrom([], data[1..])
    else if |block| == 253 then [255] + block + [data[0]] + EncodeFrom([], data[1..])
    else EncodeFrom(block + [data[0]], data[1..])
  }

  function Encode(data: bytes): bytes
  {
    EncodeFrom([], data)
  }

  method CobsEncode(data: bytes) returns (out: bytes)
    ensures out == Encode(data)
  {
    if data == [] {
      return [1];
    }
    out := [];
    var block: bytes := [];
    for i := 0 to |data|
      invariant |block| <= 253
      invariant out + EncodeFrom(block, data[i..]) == Encode(data)
    {
      var b := data[i];
      assert data[i..][0] == b && data[i..][1..] == data[i + 1..];
      if b == 0 {
        out := out + [|block| + 1] + block;
        block := [];
      } else {
        block := block + [b];
        if |block| == 254 {
          out := out + [255] + block;
          block := [];
        }
      }
    }
    out := out + [|block| + 1] + block;
  }

  /** What the decoder makes of the rest of a frame, from a code byte on. */
  function DecodeFrom(x: bytes): Result<bytes, CobsError>
    decreases |x|
  {
    if x == [] then Ok([])
    else if x[0] == 0 then Err(UnexpectedZero)
    else if x[0] > |x| then Err(LengthExceedsFrame)
    else
      var rest := x[x[0]..];
      var separator: bytes := if x[0] < 255 && rest != [] then [0] else [];
      match DecodeFrom(rest)
      case Err(e) => Err(e)
      case Ok(d) => Ok(x[1..x[0]] + separator + d)
  }

  function Decode(x: bytes): Result<bytes, CobsError>
  {
    if x == [] then Err(EmptyFrame) else DecodeFrom(x)
  }

  /** A decoding with bytes already put out before it. */
  function After(out: bytes, r: Result<bytes, CobsError>): Result<bytes, CobsError>
  {
    match r
    case Err(e) => Err(e)
    case Ok(d) => Ok(out + d)
  }

  lemma {:induction false} AfterAfter(a: bytes, b: bytes, r: Result<bytes, CobsError>)
    ensures After(a, After(b, r)) == After(a + b, r)
    ensures After([], r) == r
  {
    if r.Ok? {
      assert a + (b + r.value) == a + b + r.value;
      assert [] + r.value == r.value;
    }
  }

  method CobsDecode(data: bytes) returns (r: Result<bytes, CobsError>)
    ensures r == Decode(data)
  {
    if data == [] {
      return Err(EmptyFrame);
    }
    var out: bytes := [];
    var idx := 0;
    assert data[0..] == data;
    AfterAfter([], [], DecodeFrom(data));
    while idx < |data|
      invariant 0 <= idx <= |data|
      invariant After(out, DecodeFrom(data[idx..])) == Decode(data)
    {
      ghost var x := data[idx..];
      var length := data[idx];
      if length == 0 {
        return Err(UnexpectedZero);
      }
      idx := idx + 1;
      var end := idx + length - 1;
      if end > |data| {
        return Err(LengthExceedsFrame);
      }
      assert x[1..length] == data[idx..end] && x[length..] == data[end..];
      ghost var before := out;
      out := out + data[idx..end];
      if length < 255 && end < |data| {
        out := out + [0];
      }
      idx := end;
      ghost var piece := x[1..length] + (if length < 255 && x[length..] != [] then [0] else []);
      assert out == before + piece;
      AfterAfter(before, piece, DecodeFrom(data[end..]));
    }
    assert out + [] == out;
    return Ok(out);
  }

  // ----- Decoding inverts encoding -----

  lemma {:induction false} EncodeFromZeroFree(block: bytes, data: bytes)
    requires |block| <= 253 && ZeroFree(block)
    ensures ZeroFree(EncodeFrom(block, data)) && EncodeFrom(block, data) != []
    decreases |data|
  {
    if data == [] {
    } else if data[0] == 0 || |block| == 253 {
      EncodeFromZeroFree([], data[1..]);
    } else {
      EncodeFromZeroFree(block + [data[0]], data[1..]);
    }
  }

  /** One code byte and its block come off the front of a decoding. */
  lemma {:induction false} DecodeBlock(code: byte, block: bytes, rest: bytes)
    requires code == |block| + 1
    ensures DecodeFrom([code] + block + rest)
         == After(block + (if code < 255 && rest != [] then [0] else []), DecodeFrom(rest))
  {}

  lemma {:induction false} DecodeShortBlock(block: bytes, rest: bytes, d: bytes)
    requires |block| <= 253 && rest != [] && DecodeFrom(rest) == Ok(d)
    ensures DecodeFrom([|block| + 1] + block + rest) == Ok(block + ([0] + d))
  {
    DecodeBlock(|block| + 1, block, rest);
    assert block + [0] + d == block + ([0] + d);
  }

  lemma {:induction false} DecodeFullBlock(block: bytes, rest: bytes, d: bytes)
    requires |block| == 254 && DecodeFrom(rest) == Ok(d)
    ensures DecodeFrom([255] + block + rest) == Ok(block + d)
  {
    DecodeBlock(255, block, rest);
    assert block + [] + d == block + d;
  }

  lemma {:induction false} DecodeLastBlock(block: bytes)
    requires |block| <= 253
    ensures DecodeFrom([|block| + 1] + block) == Ok(block)
  {
    DecodeBlock(|block| + 1, block, []);
    assert [|block| + 1] + block == [|block| + 1] + block + [];
    assert block + [] + [] == block;
  }

  lemma {:induction false} DecodeEncodeZero(block: bytes, data: bytes)
    requires |block| <= 253 && data != [] && data[0] == 0
    requires DecodeFrom(EncodeFrom([], data[1..])) == Ok(data[1..])
    ensures DecodeFrom(EncodeFrom(block, data)) == Ok(block + data)
  {
    DecodeShortBlock(block, EncodeFrom([], data[1..]), data[1..]);
    assert [0] + data[1..] == data;
  }

  lemma {:induction false} DecodeEncodeFull(block: bytes, data: bytes)
    requires |block| == 253 && data != [] && data[0] != 0
    requires DecodeFrom(EncodeFrom([], data[1..])) == Ok(data[1..])
    ensures DecodeFrom(EncodeFrom(block, data)) == Ok(block + data)
  {
    var full := block + [data[0]];
    DecodeFullBlock(full, EncodeFrom([], data[1..]), data[1..]);
    assert [255] + block + [data[0]] == [255] + full;
    assert full + data[1..] == block + data;
  }

  lemma {:induction false} DecodeEncodeFrom(block: bytes, data: bytes)
    requires |block| <= 253
    ensures DecodeFrom(EncodeFrom(block, data)) == Ok(block + data)
    decreases |data|
  {
    if data == [] {
      DecodeLastBlock(block);
      assert block + data == block;
    } else if data[0] == 0 || |block| == 253 {
      DecodeEncodeFrom([], data[1..]);
      assert [] + data[1..] == data[1..];
      if data[0] == 0 {
        DecodeEncodeZero(block, data);
      } else {
        DecodeEncodeFull(block, data);
      }
    } else {
      DecodeEncodeFrom(block + [data[0]], data[1..]);
      assert block + [data[0]] + data[1..] == block + data;
    }
  }

  /** Decoding an encoding gives the data back, for all data; the encoding never contains a zero. */
  lemma {:induction false} RoundTrip(data: bytes)
    ensures Decode(Encode(data)) == Ok(data)
    ensures ZeroFree(Encode(data))
  {
    EncodeFromZeroFree([], data);
    DecodeEncodeFrom([], data);
    assert [] + data == data;
  }

  // ----- Encoding nearly inverts decoding -----

  /** The code byte of the last block of a frame that decodes. */
  function LastCode(x: bytes): byte
    requires x != [] && DecodeFrom(x).Ok?
    decreases |x|
  {
    if x[0] == |x| then x[0] else LastCode(x[x[0]..])
  }

  lemma {:induction false} EncodeSkipsBlock(open: bytes, block: bytes, data: bytes)
    requires ZeroFree(block) && |open| + |block| <= 253
    ensures EncodeFrom(open, block + data) == EncodeFrom(open + block, data)
    decreases |block|
  {
    if block == [] {
      assert open + block == open && block + data == data;
    } else {
      assert (block + data)[1..] == block[1..] + data;
      assert open + [block[0]] + block[1..] == open + block;
      EncodeSkipsBlock(open + [block[0]], block[1..], data);
    }
  }

  /** Leading 254 nonzero bytes are one full block, with no zero implied. */
  lemma {:induction false} EncodeFullBlock(block: bytes, data: bytes)
    requires ZeroFree(block) && |block| == 254
    ensures Encode(block + data) == [255] + block + Encode(data)
  {
    var head, last := block[..253], block[253];
    var tail := [last] + data;
    EncodeSkipsBlock([], head, tail);
    assert [] + head == head && block + data == head + tail;
    assert last != 0 && tail[1..] == data;
    assert EncodeFrom(head, tail) == [255] + head + [last] + EncodeFrom([], data);
    assert block == head + [last];
    assert [255] + head + [last] == [255] + block;
  }

  /** Fewer nonzero bytes are one block, and one with the zero that follows it. */
  lemma {:induction false} EncodeShortBlock(code: byte, block: bytes, data: bytes)
    requires ZeroFree(block) && code == |block| + 1 < 255
    ensures Encode(block) == [code] + block
    ensures Encode(block + [0] + data) == [code] + block + Encode(data)
  {
    EncodeSkipsBlock([], block, []);
    assert block + [] == block && [] + block == block;
    var tail := [0] + data;
    assert block + [0] + data == block + tail && tail[1..] == data;
    EncodeSkipsBlock([], block, tail);
  }

  lemma {:induction false} EncodeDecodeFrom(x: bytes)
    requires x != [] && ZeroFree(x) && DecodeFrom(x).Ok?
    ensures Encode(DecodeFrom(x).value) == if LastCode(x) == 255 then x + [1] else x
    decreases |x|
  {
    var code, block, rest := x[0], x[1..x[0]], x[x[0]..];
    assert x == [code] + block + rest;
    assert code == 255 ==> [code] == [255];
    if rest == [] {
      assert block + [] + [] == block && block + [] == block;
      if code < 255 {
        EncodeShortBlock(code, block, []);
      } else {
        EncodeFullBlock(block, []);
        assert [255] + block + [1] == x + [1];
      }
    } else {
      EncodeDecodeFrom(rest);
      var d := DecodeFrom(rest).value;
      if code < 255 {
        EncodeShortBlock(code, block, d);
      } else {
        EncodeFullBlock(block, d);
        assert block + [] + d == block + d;
      }
    }
  }

  /** On zero-free frames the decoder accepts, encoding gives the frame back, up to one final
      empty block that the encoder adds exactly when the last block is full. */
  lemma {:induction false} NearCanonical(x: bytes)
    requires ZeroFree(x) && Decode(x).Ok?
    ensures Encode(Decode(x).value) == x <==> LastCode(x) != 255
    ensures Encode(Decode(x).value) == x + [1] <==> LastCode(x) == 255
  {
    EncodeDecodeFrom(x);
    assert |x + [1]| == |x| + 1;
  }

  // ----- What the decoder accepts -----

  /** A code byte with as many bytes as it says, itself included. */
  predicate IsBlock(b: bytes)
  {
    b != [] && b[0] == |b|
  }

  /** What blocks stand for: their bytes, with a zero after each but the last and the full ones. */
  function Joined(blocks: seq<bytes>): bytes
    requires forall b :: b in blocks ==> IsBlock(b)
  {
    if blocks == [] then []
    else
      assert IsBlock(blocks[0]);
      blocks[0][1..] + (if |blocks| > 1 && |blocks[0]| < 255 then [0] else []) + Joined(blocks[1..])
  }

  lemma {:induction false} DecodeBlocks(blocks: seq<bytes>)
    requires forall b :: b in blocks ==> IsBlock(b)
    ensures DecodeFrom(Flatten(blocks)) == Ok(Joined(blocks))
    ensures Flatten(blocks) == [] <==> blocks == []
    decreases |blocks|
  {
    if blocks != [] {
      var b, rest := blocks[0], blocks[1..];
      DecodeBlocks(rest);
      assert IsBlock(b) && b == [b[0]] + b[1..];
      DecodeBlock(b[0], b[1..], Flatten(rest));
      assert Flatten(blocks) == [b[0]] + b[1..] + Flatten(rest);
    }
  }

  lemma {:induction false} AcceptedBlocks(x: bytes) returns (blocks: seq<bytes>)
    requires DecodeFrom(x).Ok?
    ensures (forall b :: b in blocks ==> IsBlock(b)) && x == Flatten(blocks)
    decreases |x|
  {
    if x == [] {
      blocks := [];
    } else {
      var more := AcceptedBlocks(x[x[0]..]);
      blocks := [x[..x[0]]] + more;
      assert blocks[1..] == more;
    }
  }

  /** The decoder accepts exactly the frames made of one block or more, and yields what they stand for. */
  lemma {:induction false} AcceptsExactly(x: bytes, d: bytes)
    ensures Decode(x) == Ok(d) <==>
      exists blocks: seq<bytes> :: blocks != [] && (forall b :: b in blocks ==> IsBlock(b))
        && x == Flatten(blocks) && d == Joined(blocks)
  {
    if x != [] && DecodeFrom(x).Ok? {
      var blocks := AcceptedBlocks(x);
      DecodeBlocks(blocks);
    }
    forall blocks: seq<bytes> | blocks != [] && (forall b :: b in blocks ==> IsBlock(b)) && x == Flatten(blocks)
      ensures Decode(x) == Ok(Joined(blocks))
    {
      DecodeBlocks(blocks);
    }
  }

  lemma {:induction false} FailsAfterBlock(b: bytes, more: bytes, e: CobsError)
    requires IsBlock(b) && DecodeFrom(more) == Err(e)
    ensures DecodeFrom(b + more) == Err(e)
  {
    assert b == [b[0]] + b[1..];
    DecodeBlock(b[0], b[1..], more);
  }

  lemma {:induction false} FailsAfterBlocks(blocks: seq<bytes>, rest: bytes, e: CobsError)
    requires (forall b :: b in blocks ==> IsBlock(b)) && DecodeFrom(rest) == Err(e)
    ensures DecodeFrom(Flatten(blocks) + rest) == Err(e)
    decreases |blocks|
  {
    if blocks == [] {
      assert Flatten(blocks) + rest == rest;
    } else {
      FailsAfterBlocks(blocks[1..], rest, e);
      FailsAfterBlock(blocks[0], Flatten(blocks[1..]) + rest, e);
      assert Flatten(blocks) + rest == blocks[0] + (Flatten(blocks[1..]) + rest);
    }
  }

  /** Why a frame is refused: it is empty, or after some blocks the code byte is zero or says too much. */
  lemma {:induction false} RefusesExactly(blocks: seq<bytes>, rest: bytes)
    requires forall b :: b in blocks ==> IsBlock(b)
    requires rest != [] && (rest[0] == 0 || rest[0] > |rest|)
    ensures Decode(Flatten(blocks) + rest) == Err(if rest[0] == 0 then UnexpectedZero else LengthExceedsFrame)
    ensures Decode([]) == Err(EmptyFrame)
  {
    FailsAfterBlocks(blocks, rest, if rest[0] == 0 then UnexpectedZero else LengthExceedsFrame);
  }

  // ----- Length -----

  lemma {:induction false} EncodeFromLength(block: bytes, data: bytes)
    requires |block| <= 253
    ensures |EncodeFrom(block, data)| <= |block| + |data| + 1 + (|block| + |data|) / 254
    ensures ZeroFree(data) ==> |EncodeFrom(block, data)| == |block| + |data| + 1 + (|block| + |data|) / 254
    decreases |data|
  {
    if data == [] {
    } else if data[0] == 0 || |block| == 253 {
      EncodeFromLength([], data[1..]);
    } else {
      EncodeFromLength(block + [data[0]], data[1..]);
    }
  }

  /** The overhead is at most one byte plus one per 254, and exactly that on zero-free data. */
  lemma {:induction false} EncodeLength(data: bytes)
    ensures |Encode(data)| <= |data| + 1 + |data| / 254
    ensures ZeroFree(data) ==> |Encode(data)| == |data| + 1 + |data| / 254
  {
    EncodeFromLength([], data);
  }
}
