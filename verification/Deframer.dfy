/** The gateway's read loop: frames recovered from a byte stream that arrives in chunks. */
module Deframer {
  import opened Prelude
  import opened Protocol
  import opened Cobs
  import Wire

  // ----- A stream cut at its zeros, one byte at a time -----

  /** Exactly one zero, at the end. */
  ghost predicate IsImage(x: bytes)
  {
    x != [] && x[|x| - 1] == 0 && ZeroFree(x[..|x| - 1])
  }

  /** The images completed by a stream, each with its delimiter, given the bytes held before it. */
  function Images(held: bytes, s: bytes): seq<bytes>
    decreases |s|
  {
    if s == [] then []
    else if s[0] == 0 then [held + [0]] + Images([], s[1..])
    else Images(held + [s[0]], s[1..])
  }

  /** The bytes held once the stream has passed. */
  function Rest(held: bytes, s: bytes): bytes
    decreases |s|
  {
    if s == [] then held
    else if s[0] == 0 then Rest([], s[1..])
    else Rest(held + [s[0]], s[1..])
  }

  lemma {:induction false} CutAppend(held: bytes, s: bytes, t: bytes)
    ensures Images(held, s + t) == Images(held, s) + Images(Rest(held, s), t)
    ensures Rest(held, s + t) == Rest(Rest(held, s), t)
    decreases |s|
  {
    if s == [] {
      assert s + t == t;
    } else {
      assert (s + t)[1..] == s[1..] + t;
      CutAppend(if s[0] == 0 then [] else held + [s[0]], s[1..], t);
    }
  }

  lemma {:induction false} CutsStream(held: bytes, s: bytes)
    requires ZeroFree(held)
    ensures Flatten(Images(held, s)) + Rest(held, s) == held + s
    ensures forall x :: x in Images(held, s) ==> IsImage(x)
    ensures ZeroFree(Rest(held, s))
    decreases |s|
  {
    if s != [] {
      assert s == [s[0]] + s[1..];
      if s[0] == 0 {
        CutsStream([], s[1..]);
        var x, more := held + [0], Images([], s[1..]);
        assert ([x] + more)[1..] == more;
        assert x + Flatten(more) + Rest([], s[1..]) == x + (Flatten(more) + Rest([], s[1..]));
        assert x[..|x| - 1] == held;
      } else {
        CutsStream(held + [s[0]], s[1..]);
      }
    }
  }

  lemma {:induction false} HoldPrefix(held: bytes, p: bytes, s: bytes)
    requires ZeroFree(p)
    ensures Images(held, p + s) == Images(held + p, s) && Rest(held, p + s) == Rest(held + p, s)
    decreases |p|
  {
    if p == [] {
      assert p + s == s && held + p == held;
    } else {
      assert (p + s)[1..] == p[1..] + s;
      assert ZeroFree(p[1..]);
      HoldPrefix(held + [p[0]], p[1..], s);
      assert held + [p[0]] + p[1..] == held + p;
    }
  }

  lemma {:induction false} CutAtImage(x: bytes, s: bytes)
    requires IsImage(x)
    ensures Images([], x + s) == [x] + Images([], s) && Rest([], x + s) == Rest([], s)
  {
    var p := x[..|x| - 1];
    assert x + s == p + ([0] + s) && x == p + [0] && [] + p == p;
    HoldPrefix([], p, [0] + s);
    assert ([0] + s)[1..] == s;
  }

  /** The cut is the only one: any way of writing a stream as delimited images and a zero-free
      remainder is the one found. */
  lemma {:induction false} CutIsUnique(images: seq<bytes>, rest: bytes)
    requires forall x :: x in images ==> IsImage(x)
    requires ZeroFree(rest)
    ensures Images([], Flatten(images) + rest) == images && Rest([], Flatten(images) + rest) == rest
    decreases |images|
  {
    if images == [] {
      assert Flatten(images) + rest == rest + [] && [] + rest == rest;
      HoldPrefix([], rest, []);
    } else {
      CutIsUnique(images[1..], rest);
      CutAtImage(images[0], Flatten(images[1..]) + rest);
      assert Flatten(images) + rest == images[0] + (Flatten(images[1..]) + rest);
      assert images == [images[0]] + images[1..];
    }
  }

  // ----- The frames a stream carries -----

  /** Images that do not hold a valid frame are dropped in silence. */
  function Frames(images: seq<bytes>): seq<Frame>
  {
    if images == [] then []
    else match Deliver(images[0])
      case None => Frames(images[1..])
      case Some(f) => [f] + Frames(images[1..])
  }

  lemma {:induction false} FramesAppend(xs: seq<bytes>, ys: seq<bytes>)
    ensures Frames(xs + ys) == Frames(xs) + Frames(ys)
    decreases |xs|
  {
    if xs == [] {
      assert xs + ys == ys;
    } else {
      assert (xs + ys)[1..] == xs[1..] + ys;
      FramesAppend(xs[1..], ys);
    }
  }

  lemma {:induction false} FramesCons(x: bytes, images: seq<bytes>, out: seq<Frame>)
    ensures out + Frames([x] + images) == (match Deliver(x) case None => out case Some(f) => out + [f]) + Frames(images)
  {
    assert ([x] + images)[1..] == images;
    match Deliver(x)
    case None =>
    case Some(f) => assert out + ([f] + Frames(images)) == out + [f] + Frames(images);
  }

  function Received(s: bytes): seq<Frame>
  {
    Frames(Images([], s))
  }

  // ----- The loop -----

  /** buffer.index(0). */
  function FirstZero(s: bytes): (i: nat)
    requires 0 in s
    ensures i < |s| && s[i] == 0
    ensures ZeroFree(s[..i])
  {
    if s[0] == 0 then 0 else 1 + FirstZero(s[1..])
  }

  lemma {:induction false} ZeroFreeHeld(s: bytes)
    requires 0 !in s
    ensures Images([], s) == [] && Rest([], s) == s
  {
    HoldPrefix([], s, []);
    assert s + [] == s && [] + s == s;
  }

  /** The inner loop: every complete image leaves the buffer, in order. */
  method DrainBuffer(stream: bytes) returns (dispatched: seq<Frame>, buffer: bytes)
    ensures dispatched == Received(stream) && buffer == Rest([], stream)
  {
    dispatched, buffer := [], stream;
    while 0 in buffer
      invariant dispatched + Received(buffer) == Received(stream)
      invariant Rest([], buffer) == Rest([], stream)
      decreases |buffer|
    {
      var delim := FirstZero(buffer);
      var image := buffer[..delim + 1];
      assert image[..delim] == buffer[..delim];
      assert buffer == image + buffer[delim + 1..];
      buffer := buffer[delim + 1..];
      CutAtImage(image, buffer);
      FramesCons(image, Images([], buffer), dispatched);
      var frame := Deliver(image);
      if frame.Some? {
        dispatched := dispatched + [frame.value];
      }
    }
    ZeroFreeHeld(buffer);
    assert dispatched + [] == dispatched;
  }

  /** The outer loop over the chunks read from the port: how the stream was chunked leaves no trace. */
  method ReadLoop(chunks: seq<bytes>) returns (dispatched: seq<Frame>, buffer: bytes)
    ensures dispatched == Received(Flatten(chunks)) && buffer == Rest([], Flatten(chunks))
    ensures ZeroFree(buffer)
  {
    dispatched, buffer := [], [];
    for i := 0 to |chunks|
      invariant dispatched == Received(Flatten(chunks[..i])) && buffer == Rest([], Flatten(chunks[..i]))
    {
      ghost var s := Flatten(chunks[..i]);
      assert chunks[..i + 1] == chunks[..i] + [chunks[i]];
      FlattenAppend(chunks[..i], [chunks[i]]);
      assert Flatten([chunks[i]]) == chunks[i];
      CutAppend([], s, chunks[i]);
      FramesAppend(Images([], s), Images(buffer, chunks[i]));
      CutsStream([], s);
      HoldPrefix([], buffer, chunks[i]);
      assert [] + buffer == buffer;
      var frames: seq<Frame>;
      frames, buffer := DrainBuffer(buffer + chunks[i]);
      dispatched := dispatched + frames;
    }
    assert chunks[..|chunks|] == chunks;
    CutsStream([], Flatten(chunks));
  }

  // ----- Resynchronisation -----

  function WireImages(frames: seq<Frame>): seq<bytes>
    requires forall f :: f in frames ==> f.Raw().Ok?
  {
    if frames == [] then [] else [Wire.Stuff(frames[0].Raw().value)] + WireImages(frames[1..])
  }

  lemma {:induction false} SentImage(f: Frame)
    requires f.Raw().Ok? && f.version == VERSION
    ensures IsImage(Wire.Stuff(f.Raw().value)) && Deliver(Wire.Stuff(f.Raw().value)) == Some(f)
  {
    FrameRoundTrip(f);
    FrameImage(f);
  }

  /** Image by image, these frames are delivered. */
  ghost predicate Carries(images: seq<bytes>, frames: seq<Frame>)
  {
    |images| == |frames| && forall k :: 0 <= k < |images| ==> Deliver(images[k]) == Some(frames[k])
  }

  lemma {:induction false} FramesCarried(images: seq<bytes>, frames: seq<Frame>)
    requires Carries(images, frames)
    ensures Frames(images) == frames
    decreases |images|
  {
    if images != [] {
      assert Deliver(images[0]) == Some(frames[0]);
      FramesCarried(images[1..], frames[1..]);
    }
  }

  lemma {:induction false} WireImageAt(frames: seq<Frame>, k: nat)
    requires k < |frames| && forall f :: f in frames ==> f.Raw().Ok?
    ensures |WireImages(frames)| == |frames|
    ensures WireImages(frames)[k] == Wire.Stuff(frames[k].Raw().value)
    decreases |frames|
  {
    if |frames| > 1 {
      WireImageAt(frames[1..], if k > 0 then k - 1 else 0);
    }
  }

  lemma {:induction false} SentAt(frames: seq<Frame>, k: nat)
    requires k < |frames| && forall f :: f in frames ==> f.Raw().Ok? && f.version == VERSION
    ensures var images := WireImages(frames);
      |images| == |frames| && IsImage(images[k]) && Deliver(images[k]) == Some(frames[k])
  {
    WireImageAt(frames, k);
    SentImage(frames[k]);
  }

  lemma {:induction false} SentImages(frames: seq<Frame>)
    requires forall f :: f in frames ==> f.Raw().Ok? && f.version == VERSION
    ensures forall x :: x in WireImages(frames) ==> IsImage(x)
    ensures Frames(WireImages(frames)) == frames
  {
    var images := WireImages(frames);
    forall k | 0 <= k < |frames|
      ensures |images| == |frames| && IsImage(images[k]) && Deliver(images[k]) == Some(frames[k])
    {
      SentAt(frames, k);
    }
    FramesCarried(images, frames);
  }

  lemma {:induction false} SentReceived(frames: seq<Frame>)
    requires forall f :: f in frames ==> f.Raw().Ok? && f.version == VERSION
    ensures Received(Flatten(WireImages(frames))) == frames && Rest([], Flatten(WireImages(frames))) == []
  {
    var wire := Flatten(WireImages(frames));
    SentImages(frames);
    CutIsUnique(WireImages(frames), []);
    assert wire + [] == wire;
  }

  lemma {:induction false} RestAfterZero(held: bytes, s: bytes)
    requires s != [] && s[|s| - 1] == 0
    ensures Rest(held, s) == []
    decreases |s|
  {
    if |s| > 1 {
      RestAfterZero(if s[0] == 0 then [] else held + [s[0]], s[1..]);
    }
  }

  /** After any bytes ending in a zero, every frame sent is dispatched once, in order, unchanged,
      and nothing is left over. */
  lemma {:induction false} Resynchronises(garbage: bytes, frames: seq<Frame>)
    requires garbage != [] && garbage[|garbage| - 1] == 0
    requires forall f :: f in frames ==> f.Raw().Ok? && f.version == VERSION
    ensures Received(garbage + Flatten(WireImages(frames))) == Received(garbage) + frames
    ensures Rest([], garbage + Flatten(WireImages(frames))) == []
  {
    var wire := Flatten(WireImages(frames));
    RestAfterZero([], garbage);
    CutAppend([], garbage, wire);
    SentReceived(frames);
    FramesAppend(Images([], garbage), Images([], wire));
  }

  /** Whatever was on the line before, at most the first frame sent is lost. */
  lemma {:induction false} AtMostOneLost(garbage: bytes, first: Frame, frames: seq<Frame>)
    requires first.Raw().Ok?
    requires forall f :: f in frames ==> f.Raw().Ok? && f.version == VERSION
    ensures var lead := garbage + Wire.Stuff(first.Raw().value);
      Received(lead + Flatten(WireImages(frames))) == Received(lead) + frames
  {
    Wire.StuffShape(first.Raw().value);
    Resynchronises(garbage + Wire.Stuff(first.Raw().value), frames);
  }
}
