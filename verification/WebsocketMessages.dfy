/** WebSocket frames and messages (RFC 6455 section 5): the frame printer, the
    frame parser and the buffer that reassembles fragments.

    Each class has a `View()` of its fields as a value; the functions on values
    are what its methods are proved against, and what the protocol properties in
    `WebsocketCodec` and `WebsocketStreams` are stated about. */
module WebsocketMessages {
  import opened Prelude
  import opened Bits

  datatype MessageKind =
    | KindUnknown | KindText | KindBinary | KindClose | KindPing | KindPong

  datatype Message = Message(kind: MessageKind, content: seq<byte>)

  const OPCODE_CONTINUATION := 0
  const OPCODE_TEXT := 1
  const OPCODE_BINARY := 2
  const OPCODE_CLOSE := 8
  const OPCODE_PING := 9
  const OPCODE_PONG := 10

  /** The masking key, four bytes. */
  type MaskKey = m: seq<byte> | |m| == 4 witness [0, 0, 0, 0]

  /** A frame: the two header bytes, which overlay the bit fields read below, and
      the decoded length, masking key and payload. */
  datatype Frame = Frame(byte0: byte, byte1: byte, length: nat, mask: MaskKey, content: seq<byte>) {
    function Opcode(): nat { byte0 % 16 }
    predicate Fin() { byte0 / 128 == 1 }
    function Len(): nat { byte1 % 128 }
    predicate Masked() { byte1 / 128 == 1 }
  }

  function OpcodeOf(kind: MessageKind): nat {
    match kind
    case KindUnknown => OPCODE_CONTINUATION
    case KindText => OPCODE_TEXT
    case KindBinary => OPCODE_BINARY
    case KindClose => OPCODE_CLOSE
    case KindPing => OPCODE_PING
    case KindPong => OPCODE_PONG
  }

  function KindOf(opcode: nat): MessageKind {
    if opcode == OPCODE_TEXT then KindText
    else if opcode == OPCODE_BINARY then KindBinary
    else if opcode == OPCODE_CLOSE then KindClose
    else if opcode == OPCODE_PING then KindPing
    else if opcode == OPCODE_PONG then KindPong
    else KindUnknown
  }

  // ---------- the wire format of RFC 6455 section 5.2 ----------

  /** The three encodings of the payload length. */
  datatype LengthForm = Short | Medium | Long {
    /** The value of the 7-bit length field for a payload of `n` bytes. */
    function Code(n: nat): nat {
      match this case Short => n case Medium => 126 case Long => 127
    }
    function Extension(n: nat): seq<byte> {
      match this case Short => [] case Medium => ToBigEndian(n, 2) case Long => ToBigEndian(n, 8)
    }
    predicate Fits(n: nat) {
      match this
      case Short => n < 126
      case Medium => n < 0x1_0000
      case Long => n < 0x1_0000_0000_0000_0000
    }
  }

  /** The shortest encoding that fits. */
  function MinimalForm(n: nat): LengthForm {
    if n < 126 then Short else if n < 0x1_0000 then Medium else Long
  }

  /** Masking, section 5.3: byte i of the payload is xor-ed with byte i mod 4 of the key. */
  function ApplyMask(key: MaskKey, data: seq<byte>): (r: seq<byte>)
    ensures |r| == |data|
    ensures forall i :: 0 <= i < |data| ==> r[i] == XorByte(data[i], key[i % 4])
  {
    seq(|data|, i requires 0 <= i < |data| => XorByte(data[i], key[i % 4]))
  }

  /** A frame as a sender describes it. */
  datatype WireFrame = WireFrame(byte0: byte, form: LengthForm, key: Option<MaskKey>, payload: seq<byte>) {
    predicate Valid() { form.Fits(|payload|) }
  }

  function EncodeHeader(byte0: byte, form: LengthForm, masked: bool, n: nat): seq<byte>
    requires form.Fits(n)
  {
    [byte0, form.Code(n) + if masked then 128 else 0] + form.Extension(n)
  }

  function EncodeFrame(w: WireFrame): seq<byte>
    requires w.Valid()
  {
    EncodeHeader(w.byte0, w.form, w.key.Some?, |w.payload|)
    + match w.key case None => w.payload case Some(k) => k + ApplyMask(k, w.payload)
  }

  /** The single unmasked final frame that carries a message from the server. */
  function ServerFrame(m: Message): WireFrame {
    WireFrame(128 + OpcodeOf(m.kind), MinimalForm(|m.content|), None, m.content)
  }

  /** The two octets that the medium form writes. */
  lemma TwoOctets(n: nat)
    ensures ToBigEndian(n, 2) == [Shr(n, 8) % 256, Shr(n, 0) % 256]
  {
    BigEndianDigit(n, 2, 1);
    BigEndianDigit(n, 2, 0);
  }

  /** The eight octets that the long form writes. */
  lemma EightOctets(n: nat)
    ensures ToBigEndian(n, 8) ==
            [Shr(n, 56) % 256, Shr(n, 48) % 256, Shr(n, 40) % 256, Shr(n, 32) % 256,
             Shr(n, 24) % 256, Shr(n, 16) % 256, Shr(n, 8) % 256, Shr(n, 0) % 256]
  {
    BigEndianDigit(n, 8, 7);
    BigEndianDigit(n, 8, 6);
    BigEndianDigit(n, 8, 5);
    BigEndianDigit(n, 8, 4);
    BigEndianDigit(n, 8, 3);
    BigEndianDigit(n, 8, 2);
    BigEndianDigit(n, 8, 1);
    BigEndianDigit(n, 8, 0);
  }

  // ---------- the parser and the reassembly buffer on values ----------

  datatype ParserState =
    | HeaderByte1 | HeaderByte2
    | Length8BytesLeft | Length7BytesLeft | Length6BytesLeft | Length5BytesLeft
    | Length4BytesLeft | Length3BytesLeft | Length2BytesLeft | Length1BytesLeft
    | MaskByte1 | MaskByte2 | MaskByte3 | MaskByte4
    | Body

  datatype ParseStep = ParseStep(state: ParserState, frame: Frame, result: Option<bool>)

  function AddLength(frame: Frame, input: byte, shift: nat): Frame {
    frame.(length := BitOr(frame.length, Shl(input, shift)))
  }

  /** One byte through the parser. `None` asks for more input. */
  function ConsumeByte(state: ParserState, frame: Frame, input: byte): ParseStep {
    match state
    case HeaderByte1 => ParseStep(HeaderByte2, frame.(byte0 := input), None)
    case HeaderByte2 =>
      var f := frame.(byte1 := input);
      if f.Len() < 126 then
        var g := f.(length := f.Len(), content := []);
        if f.Masked() then ParseStep(MaskByte1, g, None)
        else if f.Len() > 0 then ParseStep(Body, g, None)
        else ParseStep(HeaderByte2, g, Some(true))
      else
        ParseStep(if f.Len() == 126 then Length2BytesLeft else Length8BytesLeft, f.(length := 0), None)
    case Length8BytesLeft => ParseStep(Length7BytesLeft, AddLength(frame, input, 56), None)
    case Length7BytesLeft => ParseStep(Length6BytesLeft, AddLength(frame, input, 48), None)
    case Length6BytesLeft => ParseStep(Length5BytesLeft, AddLength(frame, input, 40), None)
    case Length5BytesLeft => ParseStep(Length4BytesLeft, AddLength(frame, input, 32), None)
    case Length4BytesLeft => ParseStep(Length3BytesLeft, AddLength(frame, input, 24), None)
    case Length3BytesLeft => ParseStep(Length2BytesLeft, AddLength(frame, input, 16), None)
    case Length2BytesLeft => ParseStep(Length1BytesLeft, AddLength(frame, input, 8), None)
    case Length1BytesLeft =>
      ParseStep(if frame.Masked() then MaskByte1 else Body, AddLength(frame, input, 0).(content := []), None)
    case MaskByte1 => ParseStep(MaskByte2, frame.(mask := frame.mask[0 := input]), None)
    case MaskByte2 => ParseStep(MaskByte3, frame.(mask := frame.mask[1 := input]), None)
    case MaskByte3 => ParseStep(MaskByte4, frame.(mask := frame.mask[2 := input]), None)
    case MaskByte4 =>
      var f := frame.(mask := frame.mask[3 := input]);
      if f.length > 0 then ParseStep(Body, f, None) else ParseStep(MaskByte4, f, Some(true))
    case Body =>
      var f := frame.(content := frame.content + [input]);
      if |f.content| < f.length then ParseStep(Body, f, None)
      else ParseStep(Body, if f.Masked() then Unmask(f) else f, Some(true))
  }

  /** The first `length` bytes of the content are unmasked, any others kept. */
  function Unmask(f: Frame): Frame
    requires f.length <= |f.content|
  {
    f.(content := ApplyMask(f.mask, f.content[..f.length]) + f.content[f.length..])
  }

  /** A whole input through the parser: it stops after the byte that yields a result. */
  datatype ParseRun = ParseRun(state: ParserState, frame: Frame, result: Option<bool>, used: nat)

  function ParseBytes(state: ParserState, frame: Frame, input: seq<byte>): (r: ParseRun)
    ensures r.used <= |input|
    ensures input != [] ==> r.used > 0
    ensures r.result.None? ==> r.used == |input|
    decreases |input|
  {
    if input == [] then ParseRun(state, frame, None, 0)
    else
      var s := ConsumeByte(state, frame, input[0]);
      if s.result.Some? then ParseRun(s.state, s.frame, s.result, 1)
      else
        var r := ParseBytes(s.state, s.frame, input[1..]);
        r.(used := r.used + 1)
  }

  datatype BufferStep = BufferStep(message: Message, result: Option<bool>)

  /** One completed frame through the reassembly buffer. */
  function ConsumeFrame(message: Message, frame: Frame): BufferStep {
    var result := if frame.Fin() then Some(true) else None;
    if frame.Opcode() == OPCODE_CONTINUATION then
      if message.kind == KindUnknown then BufferStep(message, Some(false))
      else BufferStep(message.(content := message.content + frame.content), result)
    else if KindOf(frame.Opcode()) == KindUnknown then
      BufferStep(message.(kind := KindUnknown), Some(false))
    else
      BufferStep(Message(KindOf(frame.Opcode()), frame.content), result)
  }

  // ---------- the classes ----------

  class WebsocketMessage {
    var kind: MessageKind
    var content: seq<byte>

    constructor ()
      ensures kind == KindUnknown && content == []
    {
      kind, content := KindUnknown, [];
    }

    ghost function View(): Message
      reads this
    {
      Message(kind, content)
    }
  }

  class WebsocketFrame {
    var byte0: byte
    var byte1: byte
    var length: nat
    var mask: MaskKey
    var content: seq<byte>

    /** The header, length and mask start out arbitrary, the content empty. */
    constructor (byte0: byte, byte1: byte, length: nat, mask: MaskKey)
      ensures View() == Frame(byte0, byte1, length, mask, [])
    {
      this.byte0, this.byte1, this.length, this.mask, this.content := byte0, byte1, length, mask, [];
    }

    ghost function View(): Frame
      reads this
    {
      Frame(byte0, byte1, length, mask, content)
    }

    /** Makes this the one frame that carries `message`; a message of unknown kind is refused. */
    method FromMessage(message: Message) returns (ok: bool)
      modifies this
      ensures ok == (message.kind != KindUnknown)
      ensures ok ==> byte0 == 128 + OpcodeOf(message.kind) && content == message.content && length == |content|
      ensures !ok ==> View() == old(View())
    {
      var opcode: nat;
      match message.kind {
        case KindText => opcode := OPCODE_TEXT;
        case KindBinary => opcode := OPCODE_BINARY;
        case KindClose => opcode := OPCODE_CLOSE;
        case KindPing => opcode := OPCODE_PING;
        case KindPong => opcode := OPCODE_PONG;
        case KindUnknown => return false;
      }
      var fin, rsv1, rsv2, rsv3 := 1, 0, 0, 0;
      byte0 := 128 * fin + 64 * rsv1 + 32 * rsv2 + 16 * rsv3 + opcode;
      content := message.content;
      length := |message.content|;
      return true;
    }

    /** Prints the frame, unmasked, with the shortest length encoding. The length is
        an unsigned 64-bit number, so the "too big" branch of the source is dead. */
    method Serialize() returns (buffer: seq<byte>)
      requires length < 0x1_0000_0000_0000_0000
      modifies this`byte1
      ensures byte1 == MinimalForm(length).Code(length)
      ensures buffer == EncodeHeader(byte0, MinimalForm(length), false, length) + content
    {
      hide Shr, ToBigEndian;
      var headerSize := 2;
      var len;
      if length < 126 {
        len := length;
      } else if length <= 0xFFFF {
        len := 126;
        headerSize := headerSize + 2;
      } else {
        len := 127;
        headerSize := headerSize + 8;
      }
      byte1 := len;
      buffer := seq(headerSize + |content|, _ => 0);
      buffer := buffer[0 := byte0];
      buffer := buffer[1 := byte1];
      if length < 126 {
      } else if length <= 0xFFFF {
        TwoOctets(length);
        buffer := buffer[2 := Shr(length, 8) % 256];
        buffer := buffer[3 := Shr(length, 0) % 256];
        assert buffer[2..4] == ToBigEndian(length, 2);
      } else {
        EightOctets(length);
        buffer := buffer[2 := Shr(length, 56) % 256];
        buffer := buffer[3 := Shr(length, 48) % 256];
        buffer := buffer[4 := Shr(length, 40) % 256];
        buffer := buffer[5 := Shr(length, 32) % 256];
        buffer := buffer[6 := Shr(length, 24) % 256];
        buffer := buffer[7 := Shr(length, 16) % 256];
        buffer := buffer[8 := Shr(length, 8) % 256];
        buffer := buffer[9 := Shr(length, 0) % 256];
        assert buffer[2..10] == ToBigEndian(length, 8);
      }
      buffer := buffer[..headerSize] + content;
      assert buffer[..headerSize] == EncodeHeader(byte0, MinimalForm(length), false, length);
    }
  }

  class WebsocketFrameParser {
    var state: ParserState

    constructor ()
      ensures state == HeaderByte1
    {
      state := HeaderByte1;
    }

    method Reset()
      modifies this
      ensures state == HeaderByte1
    {
      state := HeaderByte1;
    }

    method Consume(frame: WebsocketFrame, input: byte) returns (result: Option<bool>)
      modifies this, frame
      ensures ParseStep(state, frame.View(), result) == ConsumeByte(old(state), old(frame.View()), input)
    {
      match state {
        case HeaderByte1 =>
          frame.byte0 := input;
          state := HeaderByte2;
        case HeaderByte2 =>
          frame.byte1 := input;
          var len, masked := frame.byte1 % 128, frame.byte1 / 128 == 1;
          if len < 126 {
            frame.length := len;
            frame.content := [];
            if masked {
              state := MaskByte1;
            } else if frame.length > 0 {
              state := Body;
            } else {
              return Some(true);
            }
          } else if len == 126 {
            frame.length := 0;
            state := Length2BytesLeft;
          } else {
            frame.length := 0;
            state := Length8BytesLeft;
          }
        case Length8BytesLeft =>
          frame.length := BitOr(frame.length, Shl(input, 56));
          state := Length7BytesLeft;
        case Length7BytesLeft =>
          frame.length := BitOr(frame.length, Shl(input, 48));
          state := Length6BytesLeft;
        case Length6BytesLeft =>
          frame.length := BitOr(frame.length, Shl(input, 40));
          state := Length5BytesLeft;
        case Length5BytesLeft =>
          frame.length := BitOr(frame.length, Shl(input, 32));
          state := Length4BytesLeft;
        case Length4BytesLeft =>
          frame.length := BitOr(frame.length, Shl(input, 24));
          state := Length3BytesLeft;
        case Length3BytesLeft =>
          frame.length := BitOr(frame.length, Shl(input, 16));
          state := Length2BytesLeft;
        case Length2BytesLeft =>
          frame.length := BitOr(frame.length, Shl(input, 8));
          state := Length1BytesLeft;
        case Length1BytesLeft =>
          frame.length := BitOr(frame.length, Shl(input, 0));
          frame.content := [];
          state := if frame.byte1 / 128 == 1 then MaskByte1 else Body;
        case MaskByte1 =>
          frame.mask := frame.mask[0 := input];
          state := MaskByte2;
        case MaskByte2 =>
          frame.mask := frame.mask[1 := input];
          state := MaskByte3;
        case MaskByte3 =>
          frame.mask := frame.mask[2 := input];
          state := MaskByte4;
        case MaskByte4 =>
          frame.mask := frame.mask[3 := input];
          if frame.length > 0 {
            state := Body;
          } else {
            return Some(true);
          }
        case Body =>
          frame.content := frame.content + [input];
          if |frame.content| < frame.length {
            return None;
          }
          if frame.byte1 / 128 == 1 {
            UnmaskInPlace(frame);
          }
          return Some(true);
      }
      return None;
    }

    /** The unmasking loop at the end of a masked frame. */
    static method UnmaskInPlace(frame: WebsocketFrame)
      requires frame.length <= |frame.content|
      modifies frame`content
      ensures frame.View() == Unmask(old(frame.View()))
    {
      ghost var was := frame.content;
      ghost var masked := ApplyMask(frame.mask, was[..frame.length]);
      var i := 0;
      while i < frame.length
        invariant 0 <= i <= frame.length <= |frame.content| == |was|
        invariant forall j :: 0 <= j < i ==> frame.content[j] == masked[j]
        invariant forall j :: i <= j < |was| ==> frame.content[j] == was[j]
      {
        frame.content := frame.content[i := XorByte(frame.content[i], frame.mask[i % 4])];
        i := i + 1;
      }
      assert frame.content == masked + was[frame.length..];
    }

    /** Feeds `chunk[begin..]` to the parser until a frame is complete or the chunk ends. */
    method Parse(frame: WebsocketFrame, chunk: seq<byte>, begin: nat) returns (result: Option<bool>, end: nat)
      requires begin <= |chunk|
      modifies this, frame
      ensures begin <= end <= |chunk|
      ensures ParseRun(state, frame.View(), result, end - begin)
              == ParseBytes(old(state), old(frame.View()), chunk[begin..])
    {
      end := begin;
      while end != |chunk|
        invariant begin <= end <= |chunk|
        invariant var rest := ParseBytes(state, frame.View(), chunk[end..]);
                  ParseBytes(old(state), old(frame.View()), chunk[begin..]) == rest.(used := rest.used + end - begin)
        decreases |chunk| - end
      {
        ghost var input := chunk[end..];
        assert input[1..] == chunk[end + 1..];
        result := Consume(frame, chunk[end]);
        end := end + 1;
        if result.Some? {
          return;
        }
      }
      result := None;
    }
  }

  class WebsocketFrameBuffer {
    constructor () {
    }

    method Consume(message: WebsocketMessage, frame: WebsocketFrame) returns (result: Option<bool>)
      modifies message
      ensures BufferStep(message.View(), result) == ConsumeFrame(old(message.View()), frame.View())
    {
      var opcode := frame.byte0 % 16;
      if opcode == OPCODE_CONTINUATION {
        if message.kind == KindUnknown {
          return Some(false);
        } else {
          message.content := message.content + frame.content;
        }
      } else {
        if opcode == OPCODE_TEXT {
          message.kind := KindText;
        } else if opcode == OPCODE_BINARY {
          message.kind := KindBinary;
        } else if opcode == OPCODE_CLOSE {
          message.kind := KindClose;
        } else if opcode == OPCODE_PING {
          message.kind := KindPing;
        } else if opcode == OPCODE_PONG {
          message.kind := KindPong;
        } else {
          message.kind := KindUnknown;
          return Some(false);
        }
        message.content := frame.content;
      }
      if frame.byte0 / 128 == 1 {
        return Some(true);
      } else {
        return None;
      }
    }
  }
}
