/** The IronBus frame envelope `[len: u32 LE][tag: u8][body]` and its decomposition of a byte stream. */
module Wire {
  import opened Common

  type Byte = b: int | 0 <= b < 256
  type Bytes = seq<Byte>

  /** The largest tag-plus-body length a frame may declare: 16 MiB plus 64 KiB. */
  const MAX_FRAME_LEN := 16 * 1024 * 1024 + 64 * 1024
  const LEN_PREFIX := 4

  datatype Frame = Frame(tag: Byte, body: Bytes) {
    predicate Fits() {
      1 + |body| <= MAX_FRAME_LEN
    }
  }

  // ----- little-endian integers -----

  function Pow256(k: nat): (r: nat)
    ensures r > 0
  {
    if k == 0 then 1 else 256 * Pow256(k - 1)
  }

  /** The low `width` bytes of `n`, least significant first. */
  function LittleEndian(n: nat, width: nat): (s: Bytes)
    ensures |s| == width
  {
    if width == 0 then [] else [n % 256] + LittleEndian(n / 256, width - 1)
  }

  function FromLittleEndian(s: Bytes): nat {
    if s == [] then 0 else s[0] + 256 * FromLittleEndian(s[1..])
  }

  lemma {:induction false} LittleEndianRoundTrip(n: nat, width: nat)
    requires n < Pow256(width)
    ensures FromLittleEndian(LittleEndian(n, width)) == n
  {
    if width > 0 {
      LittleEndianRoundTrip(n / 256, width - 1);
      assert LittleEndian(n, width)[1..] == LittleEndian(n / 256, width - 1);
    }
  }

  lemma {:induction false} FromLittleEndianInjective(s: Bytes)
    ensures LittleEndian(FromLittleEndian(s), |s|) == s
    ensures FromLittleEndian(s) < Pow256(|s|)
  {
    if s != [] {
      FromLittleEndianInjective(s[1..]);
      var n := FromLittleEndian(s);
      assert n % 256 == s[0] && n / 256 == FromLittleEndian(s[1..]);
      assert [s[0]] + s[1..] == s;
    }
  }

  lemma Pow256Four()
    ensures Pow256(4) == 0x1_0000_0000
  {
    assert Pow256(2) == 65536;
  }

  lemma Pow256Eight()
    ensures Pow256(8) == 0x1_0000_0000_0000_0000
  {
    assert Pow256(2) == 65536;
    assert Pow256(4) == 0x1_0000_0000;
    assert Pow256(6) == 0x1_0000_0000_0000;
  }

  // ----- one frame -----

  function EncodeFrame(f: Frame): (s: Bytes)
    ensures |s| == LEN_PREFIX + 1 + |f.body|
  {
    LittleEndian(1 + |f.body|, LEN_PREFIX) + [f.tag] + f.body
  }

  datatype Decoded =
    | Complete(frame: Frame, consumed: nat)
    | NeedMore(needed: nat)
    | Malformed(len: nat)

  /** Decodes one frame from the front of `input`, checking the length prefix before trusting it. */
  function DecodeFrame(input: Bytes): (d: Decoded)
    ensures d.Complete? ==> 0 < d.consumed <= |input| && d.frame.Fits()
    ensures d.NeedMore? ==> |input| < d.needed <= LEN_PREFIX + MAX_FRAME_LEN
  {
    if |input| < LEN_PREFIX then NeedMore(LEN_PREFIX)
    else
      var frameLen := FromLittleEndian(input[..LEN_PREFIX]);
      if frameLen == 0 || frameLen > MAX_FRAME_LEN then Malformed(frameLen)
      else
        var total := LEN_PREFIX + frameLen;
        if |input| < total then NeedMore(total)
        else Complete(Frame(input[LEN_PREFIX], input[LEN_PREFIX + 1..total]), total)
  }

  /** Round trip: an encoded frame is recovered exactly, whatever follows it. */
  lemma DecodeEncode(f: Frame, rest: Bytes)
    requires f.Fits()
    ensures DecodeFrame(EncodeFrame(f) + rest) == Complete(f, |EncodeFrame(f)|)
  {
    var input := EncodeFrame(f) + rest;
    Pow256Four();
    LittleEndianRoundTrip(1 + |f.body|, LEN_PREFIX);
    assert input[..LEN_PREFIX] == LittleEndian(1 + |f.body|, LEN_PREFIX);
    assert input[LEN_PREFIX + 1..LEN_PREFIX + 1 + |f.body|] == f.body;
  }

  /** The converse: whatever decodes is the encoding of the frame returned. */
  lemma EncodeDecode(input: Bytes)
    requires DecodeFrame(input).Complete?
    ensures var d := DecodeFrame(input);
            d.consumed == |EncodeFrame(d.frame)| && input == EncodeFrame(d.frame) + input[d.consumed..]
  {
    var d := DecodeFrame(input);
    FromLittleEndianInjective(input[..LEN_PREFIX]);
    assert input[..LEN_PREFIX] == LittleEndian(1 + |d.frame.body|, LEN_PREFIX);
    assert input[..d.consumed] == EncodeFrame(d.frame);
    assert input == input[..d.consumed] + input[d.consumed..];
  }

  /** A verdict reached on a prefix is the verdict on every extension of it. */
  lemma DecodeStable(input: Bytes, more: Bytes)
    requires !DecodeFrame(input).NeedMore?
    ensures DecodeFrame(input + more) == DecodeFrame(input)
  {
    assert (input + more)[..LEN_PREFIX] == input[..LEN_PREFIX];
    if DecodeFrame(input).Complete? {
      var total := DecodeFrame(input).consumed;
      assert (input + more)[LEN_PREFIX + 1..total] == input[LEN_PREFIX + 1..total];
    }
  }

  // ----- a stream of frames -----

  ghost predicate AllFit(fs: seq<Frame>) {
    forall i :: 0 <= i < |fs| ==> fs[i].Fits()
  }

  function EncodeAll(fs: seq<Frame>): Bytes {
    if fs == [] then [] else EncodeAll(fs[..|fs| - 1]) + EncodeFrame(fs[|fs| - 1])
  }

  lemma EncodeAllSnoc(fs: seq<Frame>, f: Frame)
    ensures EncodeAll(fs + [f]) == EncodeAll(fs) + EncodeFrame(f)
  {
    assert (fs + [f])[..|fs|] == fs;
  }

  lemma EncodeAllCons(f: Frame, fs: seq<Frame>)
    ensures EncodeAll([f] + fs) == EncodeFrame(f) + EncodeAll(fs)
  {
    hide EncodeAll, EncodeFrame;
    EncodeAllNil();
    EncodeAllSnoc([], f);
    assert [] + [f] == [f];
    EncodeAllAppend([f], fs);
  }

  lemma EncodeAllNil()
    ensures EncodeAll([]) == []
  {
  }

  lemma {:induction false} EncodeAllAppend(fs: seq<Frame>, gs: seq<Frame>)
    ensures EncodeAll(fs + gs) == EncodeAll(fs) + EncodeAll(gs)
  {
    hide EncodeAll, EncodeFrame;
    if gs == [] {
      EncodeAllNil();
      assert fs + gs == fs;
    } else {
      var init, last := gs[..|gs| - 1], gs[|gs| - 1];
      EncodeAllAppend(fs, init);
      EncodeAllSnoc(fs + init, last);
      EncodeAllSnoc(init, last);
      assert gs == init + [last] && fs + gs == fs + init + [last];
      AppendAssoc(EncodeAll(fs), EncodeAll(init), EncodeFrame(last));
    }
  }

  /** Taking a decoded frame off the buffer loses no byte. */
  lemma TakeOff(fs: seq<Frame>, buf: Bytes)
    requires DecodeFrame(buf).Complete?
    ensures var d := DecodeFrame(buf);
            && d.consumed == |EncodeFrame(d.frame)|
            && buf == EncodeFrame(d.frame) + buf[d.consumed..]
            && EncodeAll(fs) + buf == EncodeAll(fs + [d.frame]) + buf[d.consumed..]
  {
    var d := DecodeFrame(buf);
    EncodeDecode(buf);
    EncodeAllSnoc(fs, d.frame);
    AppendAssoc(EncodeAll(fs), EncodeFrame(d.frame), buf[d.consumed..]);
  }

  /** A stream has one decomposition: frame lists read off prefixes of the same stream agree as far as
      the shorter one reaches. */
  lemma {:induction false} FramingIsUnique(fs: seq<Frame>, buf: Bytes, gs: seq<Frame>, buf': Bytes, stream: Bytes)
    requires AllFit(fs) && AllFit(gs) && |fs| <= |gs|
    requires EncodeAll(fs) + buf <= stream && EncodeAll(gs) + buf' <= stream
    ensures fs == gs[..|fs|]
  {
    if fs != [] {
      HeadFrame(fs, buf, stream);
      var rest := stream[|EncodeFrame(fs[0])|..];
      HeadFrame(gs, buf', stream);
      FramingIsUnique(fs[1..], buf, gs[1..], buf', rest);
      assert fs == [fs[0]] + fs[1..] && gs == [gs[0]] + gs[1..];
    }
  }

  lemma HeadFrame(fs: seq<Frame>, buf: Bytes, stream: Bytes)
    requires AllFit(fs) && fs != [] && EncodeAll(fs) + buf <= stream
    ensures |EncodeFrame(fs[0])| <= |stream|
    ensures DecodeFrame(stream) == Complete(fs[0], |EncodeFrame(fs[0])|)
    ensures EncodeAll(fs[1..]) + buf <= stream[|EncodeFrame(fs[0])|..]
  {
    assert fs == [fs[0]] + fs[1..];
    EncodeAllCons(fs[0], fs[1..]);
    SplitPrefix(EncodeFrame(fs[0]), EncodeAll(fs[1..]), buf, stream);
    DecodeEncode(fs[0], stream[|EncodeFrame(fs[0])|..]);
  }

  lemma SplitPrefix(a: Bytes, b: Bytes, c: Bytes, s: Bytes)
    requires a + b + c <= s
    ensures |a| <= |s| && s == a + s[|a|..] && b + c <= s[|a|..]
  {
    assert a + b + c == a + (b + c);
    assert s == a + s[|a|..];
  }
}
