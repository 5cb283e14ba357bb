/** The frame parser inverts the wire format of RFC 6455 section 5.2, from any
    leftover frame contents, masked or not, with any length encoding. */
module WebsocketCodec {
  import opened Prelude
  import opened Bits
  import opened WebsocketMessages

  // ---------- parsing in pieces ----------

  /** Parsing a concatenation: once a result is found the rest is not looked at,
      and otherwise the parser carries on from the state it reached. */
  lemma {:induction false} ParseConcat(state: ParserState, frame: Frame, a: seq<byte>, b: seq<byte>)
    ensures var r := ParseBytes(state, frame, a);
            ParseBytes(state, frame, a + b) ==
            if r.result.Some? then r
            else var q := ParseBytes(r.state, r.frame, b); q.(used := |a| + q.used)
    decreases |a|
  {
    if a == [] {
      assert a + b == b;
    } else {
      var s := ConsumeByte(state, frame, a[0]);
      assert (a + b)[1..] == a[1..] + b;
      if s.result.None? {
        ParseConcat(s.state, s.frame, a[1..], b);
      }
    }
  }

  lemma ParseOne(state: ParserState, frame: Frame, b: byte)
    ensures var s := ConsumeByte(state, frame, b);
            ParseBytes(state, frame, [b]) == ParseRun(s.state, s.frame, s.result, 1)
  {
    var s := ConsumeByte(state, frame, b);
    assert [b][1..] == [];
    assert ParseBytes(s.state, s.frame, []) == ParseRun(s.state, s.frame, None, 0);
  }

  // ---------- the length field ----------

  /** No encoding that fits is shorter than the one the printer chooses. */
  lemma MinimalFormIsShortest(form: LengthForm, n: nat)
    requires form.Fits(n)
    ensures MinimalForm(n).Fits(n)
    ensures |MinimalForm(n).Extension(n)| <= |form.Extension(n)|
  {
  }

  function LengthState(left: nat): ParserState
    requires 1 <= left <= 8
  {
    [Length1BytesLeft, Length2BytesLeft, Length3BytesLeft, Length4BytesLeft,
     Length5BytesLeft, Length6BytesLeft, Length7BytesLeft, Length8BytesLeft][left - 1]
  }

  lemma LengthStep(left: nat, frame: Frame, b: byte)
    requires 1 <= left <= 8
    ensures ConsumeByte(LengthState(left), frame, b) ==
            if left > 1 then ParseStep(LengthState(left - 1), AddLength(frame, b, 8 * (left - 1)), None)
            else ParseStep(if frame.Masked() then MaskByte1 else Body,
                           AddLength(frame, b, 0).(content := []), None)
  {
  }

  /** With `i` of the `|ext|` length bytes read, `length` holds their value shifted to
      the high-order digits; the remaining bytes complete it to the whole number. */
  lemma {:induction false} LengthBytes(ext: seq<byte>, i: nat, frame: Frame)
    requires i < |ext| <= 8
    requires frame.length == Shl(FromBigEndian(ext[..i]), 8 * (|ext| - i))
    ensures ParseBytes(LengthState(|ext| - i), frame, ext[i..]) ==
            ParseRun(if frame.Masked() then MaskByte1 else Body,
                     frame.(length := FromBigEndian(ext), content := []), None, |ext| - i)
    decreases |ext| - i
  {
    hide BitOr, Shl;
    var left := |ext| - i;
    var v := FromBigEndian(ext[..i]);
    LengthStep(left, frame, ext[i]);
    assert 8 + 8 * (left - 1) == 8 * left;
    OrAppendsDigit(v, ext[i], 8 * (left - 1));
    assert ext[..i + 1][..i] == ext[..i];
    assert FromBigEndian(ext[..i + 1]) == 256 * v + ext[i];
    assert ext[i..][1..] == ext[i + 1..];
    var next := AddLength(frame, ext[i], 8 * (left - 1));
    assert next.length == Shl(FromBigEndian(ext[..i + 1]), 8 * (left - 1));
    if left > 1 {
      LengthBytes(ext, i + 1, next);
    } else {
      assert ext[..i + 1] == ext && ext[i + 1..] == [];
      ShlNothing(FromBigEndian(ext));
      assert next.length == FromBigEndian(ext);
    }
  }

  /** The length extension that the printer writes is read back as the length. */
  lemma {:induction false} LengthRoundTrip(form: LengthForm, n: nat, frame: Frame)
    requires form.Fits(n) && form != Short && frame.length == 0
    ensures var ext := form.Extension(n);
            ParseBytes(if form == Medium then Length2BytesLeft else Length8BytesLeft, frame, ext) ==
            ParseRun(if frame.Masked() then MaskByte1 else Body,
                     frame.(length := n, content := []), None, |ext|)
  {
    ExtensionDenotes(form, n);
    hide ParseBytes, Shl, FromBigEndian, ToBigEndian;
    var ext := form.Extension(n);
    assert ext[0..] == ext && ext[..0] == [];
    ShlZero(8 * |ext|);
    NoDigits();
    LengthBytes(ext, 0, frame);
  }

  lemma ExtensionDenotes(form: LengthForm, n: nat)
    requires form.Fits(n) && form != Short
    ensures FromBigEndian(form.Extension(n)) == n
  {
    hide ToBigEndian, FromBigEndian;
    assert Capacity(2) == 0x1_0000;
    assert Capacity(8) == 0x1_0000_0000_0000_0000;
    BigEndianRoundTrip(n, if form == Medium then 2 else 8);
  }

  lemma NoDigits()
    ensures FromBigEndian([]) == 0
  {
  }

  lemma ShlNothing(a: nat)
    ensures Shl(a, 0) == a
  {
  }

  lemma {:induction false} ShlZero(k: nat)
    ensures Shl(0, k) == 0
    decreases k
  {
    if k > 0 {
      ShlZero(k - 1);
    }
  }

  // ---------- header, key and payload ----------

  lemma {:induction false} FirstTwoBytes(w: WireFrame, frame: Frame)
    requires w.Valid()
    ensures var n, masked := |w.payload|, w.key.Some?;
            var b1 := w.form.Code(n) + if masked then 128 else 0;
            var s := ConsumeByte(HeaderByte2, frame.(byte0 := w.byte0), b1);
            && ParseBytes(HeaderByte1, frame, [w.byte0, b1]) == ParseRun(s.state, s.frame, s.result, 2)
            && s.frame.byte0 == w.byte0 && s.frame.Masked() == masked
            && (if w.form == Short then
                  && s.frame.length == n && s.frame.content == []
                  && (s.result == if !masked && n == 0 then Some(true) else None)
                  && (s.result.None? ==> s.state == if masked then MaskByte1 else Body)
                else
                  && s.frame.length == 0 && s.result == None
                  && s.state == if w.form == Medium then Length2BytesLeft else Length8BytesLeft)
  {
    var b1 := w.form.Code(|w.payload|) + if w.key.Some? then 128 else 0;
    ParseOne(HeaderByte1, frame, w.byte0);
    ParseOne(HeaderByte2, frame.(byte0 := w.byte0), b1);
    ParseConcat(HeaderByte1, frame, [w.byte0], [b1]);
    assert [w.byte0] + [b1] == [w.byte0, b1];
  }

  /** Where the header of a frame leaves the parser. */
  lemma {:induction false} HeaderBytes(w: WireFrame, frame: Frame)
    requires w.Valid()
    ensures var n, masked := |w.payload|, w.key.Some?;
            var head := EncodeHeader(w.byte0, w.form, masked, n);
            var r := ParseBytes(HeaderByte1, frame, head);
            && r.frame.byte0 == w.byte0 && r.frame.Masked() == masked
            && r.frame.length == n && r.frame.content == [] && r.used == |head|
            && (r.result == if !masked && w.form == Short && n == 0 then Some(true) else None)
            && (r.result.None? ==> r.state == if masked then MaskByte1 else Body)
  {
    hide ParseBytes, ConsumeByte;
    var n, masked := |w.payload|, w.key.Some?;
    var b1 := w.form.Code(n) + if masked then 128 else 0;
    var ext := w.form.Extension(n);
    FirstTwoBytes(w, frame);
    ParseConcat(HeaderByte1, frame, [w.byte0, b1], ext);
    if w.form == Short {
      assert [w.byte0, b1] + ext == [w.byte0, b1];
    } else {
      LengthRoundTrip(w.form, n, ParseBytes(HeaderByte1, frame, [w.byte0, b1]).frame);
    }
  }

  lemma {:induction false} KeyBytes(key: MaskKey, frame: Frame)
    ensures ParseBytes(MaskByte1, frame, key) ==
            var f := frame.(mask := key);
            if frame.length > 0 then ParseRun(Body, f, None, 4) else ParseRun(MaskByte4, f, Some(true), 4)
  {
    var f1 := frame.(mask := frame.mask[0 := key[0]]);
    var f2 := f1.(mask := f1.mask[1 := key[1]]);
    var f3 := f2.(mask := f2.mask[2 := key[2]]);
    var f4 := f3.(mask := f3.mask[3 := key[3]]);
    assert f4.mask == key;
    ParseOne(MaskByte4, f3, key[3]);
    assert key[2..][1..] == [key[3]];
    assert ParseBytes(MaskByte3, f2, key[2..]) ==
           ParseRun(if frame.length > 0 then Body else MaskByte4, f4,
                    if frame.length > 0 then None else Some(true), 2);
    assert key[1..][1..] == key[2..];
  }

  /** The payload ends at exactly `length` bytes and is then unmasked. */
  lemma {:induction false} PayloadBytes(frame: Frame, rest: seq<byte>)
    requires rest != [] && |frame.content| + |rest| == frame.length
    ensures var f := frame.(content := frame.content + rest);
            ParseBytes(Body, frame, rest)
            == ParseRun(Body, if frame.Masked() then Unmask(f) else f, Some(true), |rest|)
    decreases |rest|
  {
    var next := frame.(content := frame.content + [rest[0]]);
    assert next.content + rest[1..] == frame.content + rest;
    if |rest| > 1 {
      PayloadBytes(next, rest[1..]);
    } else {
      assert rest == [rest[0]];
    }
  }

  /** Masking twice with one key is the identity (section 5.3). */
  lemma {:induction false} MaskInvolution(key: MaskKey, data: seq<byte>)
    ensures ApplyMask(key, ApplyMask(key, data)) == data
  {
    var twice := ApplyMask(key, ApplyMask(key, data));
    forall i | 0 <= i < |data| ensures twice[i] == data[i] {
      XorInvolution(data[i], key[i % 4]);
    }
  }

  /** The one kind of frame the parser does not end where the sender did: unmasked
      and empty, with an extended length, which section 5.2 forbids as not minimal. */
  predicate EndsWhereSent(w: WireFrame) {
    w.form == Short || w.key.Some? || w.payload != []
  }

  ghost predicate Decoded(w: WireFrame, r: ParseRun)
    requires w.Valid()
  {
    && r.result == Some(true)
    && r.used == |EncodeFrame(w)|
    && r.frame.byte0 == w.byte0
    && r.frame.content == w.payload
  }

  lemma {:induction false} PayloadAfterHeader(w: WireFrame, h: ParseRun)
    requires w.Valid() && w.payload != [] && h.state == (if w.key.Some? then MaskByte1 else Body)
    requires h.frame.content == [] && h.frame.length == |w.payload| && h.frame.Masked() == w.key.Some?
    ensures var tail := match w.key case None => w.payload case Some(k) => k + ApplyMask(k, w.payload);
            var r := ParseBytes(h.state, h.frame, tail);
            && r.result == Some(true) && r.used == |tail|
            && r.frame.byte0 == h.frame.byte0 && r.frame.content == w.payload
  {
    match w.key {
      case None =>
        PayloadBytes(h.frame, w.payload);
        assert [] + w.payload == w.payload;
      case Some(k) =>
        var sent := ApplyMask(k, w.payload);
        KeyBytes(k, h.frame);
        ParseConcat(MaskByte1, h.frame, k, sent);
        var f := h.frame.(mask := k);
        PayloadBytes(f, sent);
        assert [] + sent == sent && sent[..f.length] == sent && sent[f.length..] == [];
        MaskInvolution(k, w.payload);
        assert ApplyMask(k, sent) + [] == w.payload;
    }
  }

  /** Frame round trip: whatever the frame object held before and whatever follows,
      a frame is decoded to its payload and the parser stops at its last byte. */
  lemma {:induction false} FrameRoundTrip(w: WireFrame, frame: Frame, rest: seq<byte>)
    requires w.Valid() && EndsWhereSent(w)
    ensures Decoded(w, ParseBytes(HeaderByte1, frame, EncodeFrame(w) + rest))
  {
    var head := EncodeHeader(w.byte0, w.form, w.key.Some?, |w.payload|);
    var tail := match w.key case None => w.payload case Some(k) => k + ApplyMask(k, w.payload);
    var h := ParseBytes(HeaderByte1, frame, head);
    HeaderBytes(w, frame);
    ParseConcat(HeaderByte1, frame, head, tail);
    if w.payload != [] {
      PayloadAfterHeader(w, h);
    } else if w.key.Some? {
      KeyBytes(w.key.value, h.frame);
      assert tail == w.key.value;
    } else {
      assert tail == [];
    }
    ParseConcat(HeaderByte1, frame, EncodeFrame(w), rest);
  }

  /** Exactly when a valid frame is complete at its last byte. */
  lemma {:induction false} FrameCompletesExactlyWhen(w: WireFrame, frame: Frame)
    requires w.Valid()
    ensures Decoded(w, ParseBytes(HeaderByte1, frame, EncodeFrame(w))) <==> EndsWhereSent(w)
  {
    if EndsWhereSent(w) {
      FrameRoundTrip(w, frame, []);
      assert EncodeFrame(w) + [] == EncodeFrame(w);
    } else {
      HeaderBytes(w, frame);
      assert EncodeFrame(w) == EncodeHeader(w.byte0, w.form, w.key.Some?, |w.payload|);
    }
  }

  /** In the forbidden case the first byte of whatever comes next is taken as payload. */
  lemma {:induction false} EmptyExtendedFrameTakesOneMore(w: WireFrame, frame: Frame, next: byte, rest: seq<byte>)
    requires w.Valid() && !EndsWhereSent(w)
    ensures var r := ParseBytes(HeaderByte1, frame, EncodeFrame(w) + [next] + rest);
            r.result == Some(true) && r.used == |EncodeFrame(w)| + 1 && r.frame.content == [next]
  {
    HeaderBytes(w, frame);
    var sent := EncodeFrame(w);
    assert sent == EncodeHeader(w.byte0, w.form, w.key.Some?, |w.payload|);
    ParseConcat(HeaderByte1, frame, sent, [next]);
    ParseOne(Body, ParseBytes(HeaderByte1, frame, sent).frame, next);
    ParseConcat(HeaderByte1, frame, sent + [next], rest);
  }

  // ---------- the wire, byte by byte ----------

  /** The length of the payload as section 5.2 spells it in the bytes after the first:
      seven bits, or 126 and two bytes, or 127 and eight, most significant first. */
  predicate Announces(head: seq<byte>, masked: bool, n: nat) {
    && |head| >= 2 && head[1] / 128 == (if masked then 1 else 0)
    && var code := head[1] % 128;
       if code < 126 then |head| == 2 && n == code
       else if code == 126 then |head| == 4 && n == 256 * (head[2] as int) + head[3]
       else |head| == 10 && n == EightBytes(head[2..])
  }

  function FormOf(head: seq<byte>): LengthForm
    requires |head| >= 2
  {
    var code := head[1] % 128;
    if code < 126 then Short else if code == 126 then Medium else Long
  }

  /** Such bytes are the header of a frame. */
  lemma {:induction false} AnnouncedHeader(head: seq<byte>, masked: bool, n: nat)
    requires Announces(head, masked, n)
    ensures FormOf(head).Fits(n) && head == EncodeHeader(head[0], FormOf(head), masked, n)
  {
    hide ToBigEndian, FromBigEndian, EightBytes;
    var ext := head[2..];
    if FormOf(head) == Medium {
      BigEndianTwo(ext);
      BigEndianBack(ext);
    } else if FormOf(head) == Long {
      BigEndianEight(ext);
      BigEndianBack(ext);
      EightFit(ext);
    }
    assert head == [head[0], head[1]] + ext;
  }

  lemma EightFit(ext: seq<byte>)
    requires |ext| == 8
    ensures 0 <= EightBytes(ext) < 0x1_0000_0000_0000_0000
  {
  }

  /** And the header of a frame is such bytes. */
  lemma {:induction false} HeaderAnnounces(byte0: byte, form: LengthForm, masked: bool, n: nat)
    requires form.Fits(n)
    ensures Announces(EncodeHeader(byte0, form, masked, n), masked, n)
  {
    hide ToBigEndian, FromBigEndian, EightBytes;
    var head := EncodeHeader(byte0, form, masked, n);
    var ext := form.Extension(n);
    match form {
      case Short =>
      case Medium =>
        ExtensionDenotes(form, n);
        BigEndianTwo(ext);
        assert head[2] == ext[0] && head[3] == ext[1];
      case Long =>
        ExtensionDenotes(form, n);
        BigEndianEight(ext);
        assert head[2..] == ext;
    }
  }

  /** A masked frame as it arrives: header, key and `n` bytes of data. It is complete at
      its last byte, and each binary digit of byte i of its content is the sum modulo 2
      of that digit of byte i of the data and of byte i mod 4 of the key. */
  lemma {:induction false} MaskedFrameDecodes(frame: Frame, head: seq<byte>, key: MaskKey, data: seq<byte>, rest: seq<byte>)
    requires Announces(head, true, |data|)
    ensures var r := ParseBytes(HeaderByte1, frame, head + key + data + rest);
            && r.result == Some(true) && r.used == |head| + 4 + |data|
            && r.frame.byte0 == head[0] && |r.frame.content| == |data|
            && forall i, d :: 0 <= i < |data| && 0 <= d < 8 ==>
                 Bit(r.frame.content[i], d) == (Bit(data[i], d) + Bit(key[i % 4], d)) % 2
  {
    hide ParseBytes, XorByte, Bit, Announces;
    MaskedFrameBytes(frame, head, key, data, rest);
    forall i, d | 0 <= i < |data| && 0 <= d < 8
      ensures Bit(ApplyMask(key, data)[i], d) == (Bit(data[i], d) + Bit(key[i % 4], d)) % 2
    {
      XorBits(data[i], key[i % 4], d);
    }
  }

  lemma {:induction false} MaskedFrameBytes(frame: Frame, head: seq<byte>, key: MaskKey, data: seq<byte>, rest: seq<byte>)
    requires Announces(head, true, |data|)
    ensures var r := ParseBytes(HeaderByte1, frame, head + key + data + rest);
            && r.result == Some(true) && r.used == |head| + 4 + |data|
            && r.frame.byte0 == head[0] && r.frame.content == ApplyMask(key, data)
  {
    hide ParseBytes, XorByte;
    var w := WireFrame(head[0], FormOf(head), Some(key), ApplyMask(key, data));
    AnnouncedHeader(head, true, |data|);
    hide Announces, EncodeHeader, FormOf;
    MaskInvolution(key, data);
    AppendAssociative(head, key, data);
    assert EncodeFrame(w) == head + (key + data);
    FrameRoundTrip(w, frame, rest);
  }

  /** An unmasked frame as it arrives, if it is not empty with an extended length. */
  lemma {:induction false} UnmaskedFrameDecodes(frame: Frame, head: seq<byte>, data: seq<byte>, rest: seq<byte>)
    requires Announces(head, false, |data|) && (|head| == 2 || data != [])
    ensures var r := ParseBytes(HeaderByte1, frame, head + data + rest);
            && r.result == Some(true) && r.used == |head| + |data|
            && r.frame.byte0 == head[0] && r.frame.content == data
  {
    var w := WireFrame(head[0], FormOf(head), None, data);
    AnnouncedHeader(head, false, |data|);
    assert EncodeFrame(w) == head + data;
    FrameRoundTrip(w, frame, rest);
  }

  /** What the server puts on the wire for a message: a final unmasked frame of its
      opcode, with no shorter announcement of the length, and then the content. */
  lemma {:induction false} ServerFrameLayout(m: Message) returns (head: seq<byte>)
    requires m.kind != KindUnknown && |m.content| < 0x1_0000_0000_0000_0000
    ensures ServerFrame(m).Valid() && EncodeFrame(ServerFrame(m)) == head + m.content
    ensures Announces(head, false, |m.content|)
    ensures forall other :: Announces(other, false, |m.content|) ==> |head| <= |other|
    ensures head[0] == match m.kind
                       case KindText => 129 case KindBinary => 130 case KindClose => 136
                       case KindPing => 137 case KindPong => 138 case KindUnknown => 0
  {
    var n := |m.content|;
    head := EncodeHeader(ServerFrame(m).byte0, MinimalForm(n), false, n);
    HeaderAnnounces(ServerFrame(m).byte0, MinimalForm(n), false, n);
    forall other | Announces(other, false, n) ensures |head| <= |other| {
      AnnouncedHeader(other, false, n);
      MinimalFormIsShortest(FormOf(other), n);
    }
  }

  // ---------- arbitrary bytes ----------

  /** What holds between any two bytes, however malformed the stream: in the payload the
      content is short of the announced length, or nothing was announced after all. */
  predicate PayloadPending(state: ParserState, frame: Frame) {
    && (state.Body? ==>
          |frame.content| < frame.length || (frame.length == 0 && frame.content == [] && !frame.Masked()))
    && ((state.MaskByte1? || state.MaskByte2? || state.MaskByte3? || state.MaskByte4?) ==>
          frame.content == [] && frame.Masked())
  }

  /** On arbitrary bytes, from the start of a frame: a completed frame holds exactly as
      many payload bytes as its length says, so that unmasking covers all of them and
      nothing else, except for the one byte an empty unmasked extended frame absorbs. */
  lemma {:induction false} CompletedFrameHasItsLength(state: ParserState, frame: Frame, bytes: seq<byte>)
    requires PayloadPending(state, frame)
    ensures var r := ParseBytes(state, frame, bytes);
            && (r.result.None? ==> PayloadPending(r.state, r.frame))
            && (r.result.Some? ==>
                  r.result == Some(true)
                  && (|r.frame.content| == r.frame.length
                      || (r.frame.length == 0 && |r.frame.content| == 1 && !r.frame.Masked())))
    decreases |bytes|
  {
    if bytes != [] {
      var s := ConsumeByte(state, frame, bytes[0]);
      if s.result.None? {
        CompletedFrameHasItsLength(s.state, s.frame, bytes[1..]);
      }
    }
  }
}
