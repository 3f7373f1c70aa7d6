/**
 * The link to the audio mixer (src/server/xair.ts): a second, hand-rolled OSC encoder with
 * a raw-blob argument, the `/ch/NN/mix/fader` address format, the subscription to remote
 * updates and meters, the cached level of the music fader, and the ad-hoc parser of
 * the mixer's datagrams. The socket's bind and connect callbacks and the 9-second
 * subscribe interval are events; the channel and the float conversions are inputs.
 */
module Xair {
  import opened Wrappers
  import opened Bytes
  import Js
  import Osc
  import OscProperties

  const MixerPort := 10023

  /** `oscArgument`: int, float (an opaque 4-byte pattern), string or raw blob. */
  datatype XArgument = I(value: int) | F(bits: Float32Bits) | S(text: string) | B(blob: seq<byte>)

  function TypeChar(a: XArgument): char
  {
    match a
    case I(_) => 'i'
    case F(_) => 'f'
    case S(_) => 's'
    case B(_) => 'b'
  }

  function TypeTags(args: seq<XArgument>): (r: string)
    ensures |r| == |args|
  {
    seq(|args|, i requires 0 <= i < |args| => TypeChar(args[i]))
  }

  /**
   * `oscArgumentToBuffer`: a blob is its own bytes, unpadded and without a size prefix;
   * ints, floats and strings are 4-aligned. `writeInt32BE` throws outside the int32 range.
   */
  function ArgumentToBuffer(a: XArgument): (r: Option<seq<byte>>)
    ensures r.None? <==> a.I? && !InInt32(a.value)
    ensures a.B? ==> r == Some(a.blob)
    ensures r.Some? && !a.B? ==> |r.value| % 4 == 0
    ensures a.I? && r.Some? ==> |r.value| == 4 && ReadInt32BE(r.value) == a.value
  {
    match a
    case I(v) => if InInt32(v) then (ReadWriteInt32(v); Some(Int32BE(v))) else None
    case F(bits) => Some(bits)
    case S(s) => Some(Osc.StrToBuf(s))
    case B(blob) => Some(blob)
  }

  /** `Buffer.concat(argBufs)`; the first argument that throws stops the send. */
  function ArgumentBytes(args: seq<XArgument>): (r: Option<seq<byte>>)
  {
    if args == [] then Some([])
    else
      match ArgumentToBuffer(args[0])
      case None => None
      case Some(head) =>
        match ArgumentBytes(args[1..])
        case None => None
        case Some(tail) => Some(head + tail)
  }

  function PrependBytes(p: seq<byte>, r: Option<seq<byte>>): Option<seq<byte>>
  {
    match r
    case Some(v) => Some(p + v)
    case None => None
  }

  /** The datagram `send(cmd, args)` builds: padded command, padded type tags, argument bytes. */
  function Payload(cmd: string, args: seq<XArgument>): (r: Option<seq<byte>>)
  {
    match ArgumentBytes(args)
    case None => None
    case Some(argBytes) => Some(Osc.StrToBuf(cmd) + Osc.StrToBuf("," + TypeTags(args)) + argBytes)
  }

  lemma {:induction false} ArgumentBytesStep(args: seq<XArgument>, i: nat, acc: seq<byte>)
    requires i < |args|
    ensures PrependBytes(acc, ArgumentBytes(args[i..])) ==
      match ArgumentToBuffer(args[i])
      case None => None
      case Some(b) => PrependBytes(acc + b, ArgumentBytes(args[i + 1..]))
  {
    assert args[i..][1..] == args[i + 1..];
    match ArgumentToBuffer(args[i])
    case None =>
    case Some(b) =>
      match ArgumentBytes(args[i + 1..])
      case None =>
      case Some(t) => assert acc + (b + t) == acc + b + t;
  }

  /** A send fails exactly when some int argument is outside the int32 range. */
  lemma {:induction false} PayloadFails(cmd: string, args: seq<XArgument>)
    ensures Payload(cmd, args).None? <==> exists i :: 0 <= i < |args| && args[i].I? && !InInt32(args[i].value)
  {
    ArgumentBytesFails(args);
  }

  lemma {:induction false} ArgumentBytesFails(args: seq<XArgument>)
    ensures ArgumentBytes(args).None? <==> exists i :: 0 <= i < |args| && args[i].I? && !InInt32(args[i].value)
  {
    if args != [] {
      ArgumentBytesFails(args[1..]);
      if ArgumentBytes(args[1..]).None? {
        var j :| 0 <= j < |args[1..]| && args[1..][j].I? && !InInt32(args[1..][j].value);
        assert args[j + 1] == args[1..][j];
      }
      if exists i :: 0 <= i < |args| && args[i].I? && !InInt32(args[i].value) {
        var i :| 0 <= i < |args| && args[i].I? && !InInt32(args[i].value);
        if i > 0 {
          assert args[1..][i - 1] == args[i];
        }
      }
    }
  }

  /** A successful payload is the padded command, the padded type tags and the raw argument bytes, in that order. */
  lemma PayloadLayout(cmd: string, args: seq<XArgument>)
    requires Payload(cmd, args).Some?
    ensures var p := Payload(cmd, args).value;
      var c := Osc.StrToBuf(cmd);
      var t := Osc.StrToBuf("," + TypeTags(args));
      |p| >= |c| + |t| && p[..|c|] == c && p[|c|..|c| + |t|] == t && p[|c| + |t|..] == ArgumentBytes(args).value
  {
    var c := Osc.StrToBuf(cmd);
    var t := Osc.StrToBuf("," + TypeTags(args));
    var p := Payload(cmd, args).value;
    assert p == c + t + ArgumentBytes(args).value;
  }

  /**
   * `send`'s loop: appends one type character and one argument buffer per argument, then
   * concatenates the padded command, the padded type tags and the argument buffers.
   */
  method BuildPayload(cmd: string, args: seq<XArgument>) returns (r: Option<seq<byte>>)
    ensures r == Payload(cmd, args)
  {
    var cmdBuf := Osc.StrToBuf(cmd);
    var argTypes := ",";
    var argBytes: seq<byte> := [];
    assert args[0..] == args;
    assert PrependBytes([], ArgumentBytes(args)) == ArgumentBytes(args) by {
      if ArgumentBytes(args).Some? {
        assert [] + ArgumentBytes(args).value == ArgumentBytes(args).value;
      }
    }
    for i := 0 to |args|
      invariant argTypes == "," + TypeTags(args[..i])
      invariant ArgumentBytes(args) == PrependBytes(argBytes, ArgumentBytes(args[i..]))
    {
      assert TypeTags(args[..i + 1]) == TypeTags(args[..i]) + [TypeChar(args[i])];
      argTypes := argTypes + [TypeChar(args[i])];
      var argBuf := ArgumentToBuffer(args[i]);
      ArgumentBytesStep(args, i, argBytes);
      if argBuf.None? {
        return None;
      }
      argBytes := argBytes + argBuf.value;
    }
    assert args[..|args|] == args;
    assert args[|args|..] == [];
    assert argBytes + [] == argBytes;
    var typesBuf := Osc.StrToBuf(argTypes);
    r := Some(cmdBuf + typesBuf + argBytes);
  }

  // ---------------------------------------------------------------------------
  // Agreement with the main OSC encoder

  function FromOsc(a: Osc.Argument): XArgument
  {
    match a
    case Int(v) => I(v)
    case Float(b) => F(b)
    case Str(s) => S(s)
  }

  function FromOscAll(args: seq<Osc.Argument>): (r: seq<XArgument>)
    ensures |r| == |args|
  {
    seq(|args|, i requires 0 <= i < |args| => FromOsc(args[i]))
  }

  lemma {:induction false} ArgumentBytesAgree(args: seq<Osc.Argument>)
    ensures ArgumentBytes(FromOscAll(args)) ==
      (if Osc.EncodeArguments(args).Ok? then Some(Osc.EncodeArguments(args).value) else None)
  {
    if args != [] {
      assert FromOscAll(args)[1..] == FromOscAll(args[1..]);
      ArgumentBytesAgree(args[1..]);
    }
  }

  /**
   * Without blobs the mixer encoder writes exactly what the main OSC encoder writes for
   * the same address and arguments, and fails on the same messages.
   */
  lemma EncodersAgree(m: Osc.Message)
    ensures Payload(Osc.AddressString(m.address), FromOscAll(m.arguments)) ==
      (if Osc.Encode(m).Ok? then Some(Osc.Encode(m).value) else None)
  {
    ArgumentBytesAgree(m.arguments);
    assert TypeTags(FromOscAll(m.arguments)) == Osc.TypeTags(m.arguments);
  }

  // ---------------------------------------------------------------------------
  // Addresses

  /** `channel.toString().padStart(2, '0')`. */
  function ChannelDigits(channel: nat): string
  {
    Js.PadStart(Js.NatToString(channel), 2, '0')
  }

  /** The fader leaf the mixer reports for a channel, without the leading `/`. */
  function FaderLeaf(channel: nat): string
  {
    "ch/" + ChannelDigits(channel) + "/mix/fader"
  }

  /** `/ch/${NN}/mix/fader`, as `requestFaderLevel` and `setFaderLevel` send it. */
  function FaderAddress(channel: nat): (r: string)
    ensures r == "/" + FaderLeaf(channel)
    ensures channel < 100 ==> r == "/ch/" + [Js.DigitChar(channel / 10), Js.DigitChar(channel % 10)] + "/mix/fader"
  {
    assert channel < 100 ==> ChannelDigits(channel) == [Js.DigitChar(channel / 10), Js.DigitChar(channel % 10)] by {
      if channel < 100 {
        Js.PadTwoDigits(channel);
      }
    }
    "/ch/" + ChannelDigits(channel) + "/mix/fader"
  }

  /** Channels below 100 have distinct fader addresses, so a reply names exactly one of them. */
  lemma FaderLeafInjective(a: nat, b: nat)
    requires a < 100 && b < 100
    ensures FaderLeaf(a) == FaderLeaf(b) <==> a == b
  {
    if FaderLeaf(a) == FaderLeaf(b) {
      assert ChannelDigits(a) == [Js.DigitChar(a / 10), Js.DigitChar(a % 10)] by { Js.PadTwoDigits(a); }
      assert ChannelDigits(b) == [Js.DigitChar(b / 10), Js.DigitChar(b % 10)] by { Js.PadTwoDigits(b); }
      assert FaderLeaf(a)[3..5] == ChannelDigits(a);
      assert FaderLeaf(b)[3..5] == ChannelDigits(b);
      assert a / 10 == b / 10 && a % 10 == b % 10;
    }
  }

  /** `['/meters/6', channel - 1, 0, 1]`: the meter subscription for the music channel. */
  function MeterSubscribe(musicChannel: int): seq<XArgument>
  {
    [S("/meters/6"), I(musicChannel - 1), I(0), I(1)]
  }

  // ---------------------------------------------------------------------------
  // Inbound datagrams

  /** `buf.indexOf(0)`: the first NUL, or -1. */
  function IndexOfNul(buf: seq<byte>): (r: int)
    ensures -1 <= r < |buf|
    ensures r >= 0 ==> buf[r] == 0 && forall i :: 0 <= i < r ==> buf[i] != 0
    ensures r == -1 ==> forall i :: 0 <= i < |buf| ==> buf[i] != 0
  {
    NoNulBefore(buf, 0);
    match Osc.FindNul(buf, 0)
    case Some(k) => k
    case None => -1
  }

  lemma {:induction false} NoNulBefore(buf: seq<byte>, from: nat)
    ensures match Osc.FindNul(buf, from)
      case Some(k) => forall i :: from <= i < k ==> buf[i] != 0
      case None => forall i :: from <= i < |buf| ==> buf[i] != 0
    decreases |buf| - from
  {
    if from < |buf| && buf[from] != 0 {
      NoNulBefore(buf, from + 1);
    }
  }

  /** `index + 4 - (index % 4)` with JavaScript's `%`: -1 (no NUL) moves to 4. */
  function NextIndex(index: int): (r: int)
    requires index >= -1
    ensures index >= 0 ==> r == Osc.NextBlock(index)
    ensures index == -1 ==> r == 4
  {
    index + 4 - Js.Rem(index, 4)
  }

  /** `buf.toString('utf-8', start, end)`, one character per byte; empty unless `start < end`. */
  function Text(buf: seq<byte>, start: nat, end: int): (r: string)
    requires end <= |buf|
  {
    if start >= |buf| || end <= start then "" else Latin1(buf[start..end])
  }

  /** `buf.slice(i)` / `buf.subarray(i)` for `i >= 0`. */
  function From(buf: seq<byte>, i: nat): seq<byte>
  {
    if i >= |buf| then [] else buf[i..]
  }

  /**
   * What a datagram from the mixer does: nothing, a new music fader level, a meter reading,
   * or a throw from a float read past the end of the buffer.
   */
  datatype Inbound = Ignored | FaderLevel(bits: Float32Bits) | MeterLevel(bits: Float32Bits) | Throws

  /**
   * The `message` handler's parse. The command is the text before the first NUL; `node`
   * and `/` are only logged. Otherwise the command minus its first character is the leaf:
   * the music channel's fader is taken only with type tag `f` (read big-endian), the meter
   * blob regardless of its tag, skipping the 8-byte blob header (read little-endian).
   * A float read with fewer than four bytes left throws (`Throws`).
   */
  function Parse(msg: seq<byte>, musicChannel: nat): (r: Inbound)
  {
    var index := IndexOfNul(msg);
    var command := Text(msg, 0, index);
    if command == "node" || command == "/" then Ignored
    else ParseLeaf(if command == "" then "" else command[1..], From(msg, NextIndex(index)), musicChannel)
  }

  /** The dispatch on the leaf address, given the bytes after the command. */
  function ParseLeaf(mixerAddress: string, msg2: seq<byte>, musicChannel: nat): (r: Inbound)
  {
    var index2 := IndexOfNul(msg2);
    var oscFormat := Text(msg2, 1, index2);
    var rest := From(msg2, NextIndex(index2));
    if mixerAddress == FaderLeaf(musicChannel) then
      if oscFormat != "f" then Ignored
      else if |rest| < 4 then Throws
      else FaderLevel(rest[..4])
    else if mixerAddress == "meters/6" then
      var meters := From(rest, 8);
      if |meters| < 4 then Throws else MeterLevel(meters[..4])
    else Ignored
  }

  predicate AllPlain(s: string)
  {
    forall i :: 0 <= i < |s| ==> (s[i] as int) < 128 && s[i] != '\0'
  }

  lemma {:induction false} AllPlainString(s: string)
    requires AllPlain(s)
    ensures OscProperties.PlainString(s)
  {
    if s != [] {
      assert AllPlain(s[1..]);
      AllPlainString(s[1..]);
    }
  }

  /** The bytes of a padded ASCII string up to its NUL, read back as text, give the string back. */
  lemma {:induction false} ReadPadded(s: string, tail: seq<byte>)
    requires OscProperties.PlainString(s)
    ensures var buf := Osc.StrToBuf(s) + tail;
      IndexOfNul(buf) == |s| && Text(buf, 0, |s|) == (if s == "" then "" else s)
      && From(buf, NextIndex(|s|)) == tail
  {
    var buf := Osc.StrToBuf(s) + tail;
    OscProperties.PaddedPlain(s);
    OscProperties.PlainAscii(s);
    Latin1Utf8Ascii(s);
    assert buf[..|s|] == Utf8(s);
    assert buf[|s|] == 0;
    assert forall i :: 0 <= i < |s| ==> buf[i] == Osc.StrToBuf(s)[i];
    assert |Osc.StrToBuf(s)| == NextIndex(|s|);
    assert From(buf, NextIndex(|s|)) == tail;
  }

  /** The tag text between the comma and the NUL, for a one-letter tag. */
  lemma ReadTag(c: char, tail: seq<byte>)
    requires 0 < (c as int) < 128
    ensures var buf := Osc.StrToBuf([',', c]) + tail;
      Text(buf, 1, IndexOfNul(buf)) == [c] && From(buf, NextIndex(IndexOfNul(buf))) == tail
  {
    var t := [',', c];
    assert AllPlain(t);
    AllPlainString(t);
    ReadPadded(t, tail);
    var buf := Osc.StrToBuf(t) + tail;
    assert Text(buf, 0, 2) == t;
    assert Text(buf, 1, 2) == Text(buf, 0, 2)[1..];
  }

  lemma PlainChannelDigits(channel: nat)
    ensures OscProperties.PlainString(ChannelDigits(channel))
  {
    var n := Js.NatToString(channel);
    var d := ChannelDigits(channel);
    forall i | 0 <= i < |d| ensures (d[i] as int) < 128 && d[i] != '\0' {
      if i >= |d| - |n| {
        assert d[i] == n[i - (|d| - |n|)];
      }
    }
    AllPlainString(d);
  }

  lemma PlainFaderWords()
    ensures OscProperties.PlainString("/ch/") && OscProperties.PlainString("/mix/fader")
  {
    assert AllPlain("/ch/");
    AllPlainString("/ch/");
    assert AllPlain("/mix/fader");
    AllPlainString("/mix/fader");
  }

  lemma PlainFaderAddress(channel: nat)
    ensures OscProperties.PlainString(FaderAddress(channel))
  {
    var d := ChannelDigits(channel);
    assert OscProperties.PlainString(d) && OscProperties.PlainString("/ch/") && OscProperties.PlainString("/mix/fader") by {
      PlainChannelDigits(channel);
      PlainFaderWords();
    }
    assert OscProperties.PlainString("/ch/" + d) by {
      OscProperties.PlainConcat("/ch/", d);
    }
    OscProperties.PlainConcat("/ch/" + d, "/mix/fader");
  }

  /** The mixer's report of the music fader, laid out as the encoder lays it out, yields its float bits. */
  lemma FaderReplyParses(channel: nat, bits: Float32Bits)
    ensures Payload(FaderAddress(channel), [F(bits)]).Some?
    ensures Parse(Payload(FaderAddress(channel), [F(bits)]).value, channel) == FaderLevel(bits)
  {
    var cmd := FaderAddress(channel);
    var tagged := Osc.StrToBuf([',', 'f']) + bits;
    assert Payload(cmd, [F(bits)]) == Some(Osc.StrToBuf(cmd) + tagged) by {
      FloatPayload(cmd, bits);
    }
    calc {
      Parse(Osc.StrToBuf(cmd) + tagged, channel);
      { PlainFaderAddress(channel); ParseCommand(cmd, tagged, channel); }
      ParseLeaf(cmd[1..], tagged, channel);
      { assert cmd[1..] == FaderLeaf(channel); }
      ParseLeaf(FaderLeaf(channel), tagged, channel);
      { ParseTagged(FaderLeaf(channel), 'f', bits, channel); assert bits[..4] == bits; }
      FaderLevel(bits);
    }
  }

  /**
   * A music fader report tagged `f` with fewer than four bytes after its tags makes
   * `readFloatBE` throw inside the listener.
   */
  lemma ShortFaderReplyThrows(channel: nat, tail: seq<byte>)
    requires |tail| < 4
    ensures Parse(Osc.StrToBuf(FaderAddress(channel)) + Osc.StrToBuf(",f") + tail, channel) == Throws
  {
    var cmd := FaderAddress(channel);
    var tagged := Osc.StrToBuf([',', 'f']) + tail;
    assert Osc.StrToBuf(cmd) + Osc.StrToBuf(",f") + tail == Osc.StrToBuf(cmd) + tagged;
    calc {
      Parse(Osc.StrToBuf(cmd) + tagged, channel);
      { PlainFaderAddress(channel); ParseCommand(cmd, tagged, channel); }
      ParseLeaf(cmd[1..], tagged, channel);
      { assert cmd[1..] == FaderLeaf(channel); }
      ParseLeaf(FaderLeaf(channel), tagged, channel);
      { ParseTagged(FaderLeaf(channel), 'f', tail, channel); }
      Throws;
    }
  }

  /** A padded command other than `node` and `/` dispatches on its text minus the first character. */
  lemma ParseCommand(cmd: string, tail: seq<byte>, channel: nat)
    requires OscProperties.PlainString(cmd) && cmd != "" && cmd != "node" && cmd != "/"
    ensures Parse(Osc.StrToBuf(cmd) + tail, channel) == ParseLeaf(cmd[1..], tail, channel)
  {
    ReadPadded(cmd, tail);
  }

  /** The leaf dispatch on a one-letter type tag. */
  lemma ParseTagged(leaf: string, c: char, tail: seq<byte>, channel: nat)
    requires 0 < (c as int) < 128
    ensures leaf == FaderLeaf(channel) ==>
      ParseLeaf(leaf, Osc.StrToBuf([',', c]) + tail, channel)
        == if c != 'f' then Ignored else if |tail| >= 4 then FaderLevel(tail[..4]) else Throws
    ensures leaf != FaderLeaf(channel) && leaf == "meters/6" ==>
      ParseLeaf(leaf, Osc.StrToBuf([',', c]) + tail, channel) == if |tail| >= 12 then MeterLevel(tail[8..12]) else Throws
  {
    ReadTag(c, tail);
    if |tail| >= 12 {
      assert From(tail, 8)[..4] == tail[8..12];
    }
  }

  /** A single float argument: tag `f` and the four bytes. */
  lemma FloatPayload(cmd: string, bits: Float32Bits)
    ensures Payload(cmd, [F(bits)]) == Some(Osc.StrToBuf(cmd) + (Osc.StrToBuf(",f") + bits))
  {
    var args := [F(bits)];
    assert TypeTags(args) == "f";
    assert args[1..] == [];
    assert bits + [] == bits;
    assert ArgumentBytes(args) == Some(bits);
    var c := Osc.StrToBuf(cmd);
    var t := Osc.StrToBuf(",f");
    assert "," + TypeTags(args) == ",f";
    assert c + t + bits == c + (t + bits);
  }

  /**
   * A `/meters/6` datagram yields the four bytes after the 8-byte blob header whatever its
   * type tag says: a wrong tag is only logged. A blob shorter than 12 bytes makes
   * `readFloatLE` throw.
   */
  lemma MeterReplyParses(tag: char, blob: seq<byte>, channel: nat)
    requires 0 < (tag as int) < 128
    ensures Parse(Osc.StrToBuf("/meters/6") + Osc.StrToBuf([',', tag]) + blob, channel)
      == if |blob| >= 12 then MeterLevel(blob[8..12]) else Throws
  {
    var cmd := "/meters/6";
    var tagged := Osc.StrToBuf([',', tag]) + blob;
    assert Osc.StrToBuf(cmd) + Osc.StrToBuf([',', tag]) + blob == Osc.StrToBuf(cmd) + tagged;
    calc {
      Parse(Osc.StrToBuf(cmd) + tagged, channel);
      { PlainMeters(); ParseCommand(cmd, tagged, channel); }
      ParseLeaf(cmd[1..], tagged, channel);
      { assert cmd[1..] == "meters/6"; }
      ParseLeaf("meters/6", tagged, channel);
      { MetersNotFader(channel); ParseTagged("meters/6", tag, blob, channel); }
      if |blob| >= 12 then MeterLevel(blob[8..12]) else Throws;
    }
  }

  lemma PlainMeters()
    ensures OscProperties.PlainString("/meters/6")
  {
    var m := "/meters/6";
    assert OscProperties.PlainString(m[8..]);
    assert OscProperties.PlainString(m[7..]);
    assert OscProperties.PlainString(m[6..]);
    assert OscProperties.PlainString(m[5..]);
    assert OscProperties.PlainString(m[4..]);
    assert OscProperties.PlainString(m[3..]);
    assert OscProperties.PlainString(m[2..]);
    assert OscProperties.PlainString(m[1..]);
  }

  lemma MetersNotFader(channel: nat)
    ensures "meters/6" != FaderLeaf(channel)
  {
    assert FaderLeaf(channel)[0] == 'c';
  }

  /** A datagram with no NUL names no command, so nothing changes. */
  lemma NoNulIgnored(msg: seq<byte>, channel: nat)
    requires forall i :: 0 <= i < |msg| ==> msg[i] != 0
    ensures Parse(msg, channel) == Ignored
  {
    assert IndexOfNul(msg) == -1;
  }

  // ---------------------------------------------------------------------------
  // The link

  /** What the browsers are sent: the music fader level (`f`) or a meter reading (`m`). */
  datatype Event = Fader(level: real) | Meter(level: real)

  class Mixer {
    /** `connected`: set once a socket has connected to the mixer, and never cleared. */
    var connected: bool
    /** `mixerSocket !== null`. */
    var hasSocket: bool
    /** The current socket has connected; a socket made by `connectXair` has not yet. */
    var socketConnected: bool
    /** `musicFaderLevel`. */
    var musicFaderLevel: real
    /** Published events, oldest first. */
    var published: seq<Event>

    constructor ()
      ensures !connected && !hasSocket && !socketConnected && musicFaderLevel == 0.0 && published == []
    {
      connected := false;
      hasSocket := false;
      socketConnected := false;
      musicFaderLevel := 0.0;
      published := [];
    }

    /** The guard of `send`, `subscribe`, `requestFaderLevel` and `setFaderLevel`. */
    predicate Ready()
      reads this
    {
      hasSocket && connected
    }

    /**
     * `send`: builds the payload (which throws for an int outside the int32 range), then sends
     * it while a socket exists and the link is connected. `send` without a port on a socket
     * that has not connected throws.
     */
    method Send(cmd: string, args: seq<XArgument>) returns (sent: seq<seq<byte>>, threw: bool)
      ensures threw <==> Payload(cmd, args).None? || (Ready() && !socketConnected)
      ensures sent == (if Ready() && socketConnected && Payload(cmd, args).Some? then [Payload(cmd, args).value] else [])
    {
      var payload := BuildPayload(cmd, args);
      if payload.None? {
        return [], true;
      }
      if hasSocket && connected {
        if !socketConnected {
          return [], true;
        }
        sent, threw := [payload.value], false;
      } else {
        sent, threw := [], false;
      }
    }

    /**
     * `connectXair`: a new socket, bound and then connected by the callbacks, becomes
     * `mixerSocket`. `connected` keeps its value, so sends reach the unconnected socket.
     */
    method ConnectXair()
      modifies this
      ensures hasSocket && !socketConnected && connected == old(connected)
      ensures musicFaderLevel == old(musicFaderLevel) && published == old(published)
    {
      hasSocket := true;
      socketConnected := false;
    }

    /**
     * The connect callback: connected, subscribe, then ask for the music fader level. A meter
     * subscription that does not encode throws before the fader request.
     */
    method OnConnected(musicChannel: nat) returns (sent: seq<seq<byte>>, threw: bool)
      requires hasSocket
      modifies this
      ensures connected && hasSocket && socketConnected
      ensures threw <==> Payload("/meters", MeterSubscribe(musicChannel)).None?
      ensures sent == SubscribeDatagrams(musicChannel) + (if threw then [] else [Payload(FaderAddress(musicChannel), []).value])
      ensures musicFaderLevel == old(musicFaderLevel) && published == old(published)
    {
      connected := true;
      socketConnected := true;
      var s, t := Subscribe(musicChannel);
      if t {
        return s, true;
      }
      var r, _ := RequestFaderLevel(musicChannel);
      sent, threw := s + r, false;
    }

    /** `/xremote`, then the meter subscription when its arguments encode. */
    static function SubscribeDatagrams(musicChannel: int): seq<seq<byte>>
    {
      [Payload("/xremote", []).value]
      + (if Payload("/meters", MeterSubscribe(musicChannel)).Some? then [Payload("/meters", MeterSubscribe(musicChannel)).value] else [])
    }

    /**
     * `subscribe`, run on connect and every 9 seconds: nothing unless connected; on a socket
     * that has not connected the first send throws.
     */
    method Subscribe(musicChannel: int) returns (sent: seq<seq<byte>>, threw: bool)
      ensures sent == (if Ready() && socketConnected then SubscribeDatagrams(musicChannel) else [])
      ensures threw <==> Ready() && (!socketConnected || Payload("/meters", MeterSubscribe(musicChannel)).None?)
      ensures Ready() && socketConnected ==> |sent| >= 1
    {
      if !(connected && hasSocket) {
        return [], false;
      }
      var remote, t := Send("/xremote", []);
      if t {
        return [], true;
      }
      var meters, t2 := Send("/meters", MeterSubscribe(musicChannel));
      sent, threw := remote + meters, t2;
    }

    /** `requestFaderLevel`: `/ch/NN/mix/fader` with no arguments, a query. */
    method RequestFaderLevel(channel: nat) returns (sent: seq<seq<byte>>, threw: bool)
      ensures threw <==> Ready() && !socketConnected
      ensures sent == (if Ready() && socketConnected then [Payload(FaderAddress(channel), []).value] else [])
    {
      if !(hasSocket && connected) {
        return [], false;
      }
      sent, threw := Send(FaderAddress(channel), []);
    }

    /**
     * `setFaderLevel`: sends the level to the channel's fader; the cached music fader level
     * changes, and is published, only when the channel is the music channel and the send did
     * not throw.
     */
    method SetFaderLevel(channel: nat, level: real, musicChannel: nat, toFloat32: real -> Float32Bits)
      returns (sent: seq<seq<byte>>, threw: bool)
      modifies this
      ensures threw <==> old(Ready()) && !socketConnected
      ensures sent == (if old(Ready()) && socketConnected then [Osc.StrToBuf(FaderAddress(channel)) + (Osc.StrToBuf(",f") + toFloat32(level))] else [])
      ensures var updates := old(Ready()) && socketConnected && channel == musicChannel;
        musicFaderLevel == (if updates then level else old(musicFaderLevel))
        && published == old(published) + (if updates then [Fader(level)] else [])
      ensures connected == old(connected) && hasSocket == old(hasSocket) && socketConnected == old(socketConnected)
    {
      if !(hasSocket && connected) {
        return [], false;
      }
      FloatPayload(FaderAddress(channel), toFloat32(level));
      sent, threw := Send(FaderAddress(channel), [F(toFloat32(level))]);
      if threw {
        return;
      }
      if channel == musicChannel {
        musicFaderLevel := level;
        published := published + [Fader(musicFaderLevel)];
      }
    }

    /**
     * A datagram from the mixer. `readLevel` is `Math.round(readFloatBE() * 1000) / 1000`,
     * `readMeter` the same over `readFloatLE`. A read past the end throws (`threw`) before
     * anything changes; no handler catches it, so it ends the server.
     */
    method OnDatagram(msg: seq<byte>, musicChannel: nat, readLevel: Float32Bits -> real, readMeter: Float32Bits -> real)
      returns (threw: bool)
      modifies this
      ensures threw <==> Parse(msg, musicChannel).Throws?
      ensures var p := Parse(msg, musicChannel);
        musicFaderLevel == (if p.FaderLevel? then readLevel(p.bits) else old(musicFaderLevel))
        && published == old(published) + (match p
             case FaderLevel(b) => [Fader(readLevel(b))]
             case MeterLevel(b) => [Meter(readMeter(b))]
             case _ => [])
      ensures connected == old(connected) && hasSocket == old(hasSocket)
      ensures socketConnected == old(socketConnected)
    {
      var parsed := Parse(msg, musicChannel);
      threw := parsed.Throws?;
      if parsed.FaderLevel? {
        musicFaderLevel := readLevel(parsed.bits);
        published := published + [Fader(musicFaderLevel)];
      } else if parsed.MeterLevel? {
        published := published + [Meter(readMeter(parsed.bits))];
      }
    }
  }

  /** Only the music channel's fader reply moves the cached level: another channel's reply is ignored. */
  lemma OtherChannelIgnored(channel: nat, musicChannel: nat, bits: Float32Bits)
    requires channel < 100 && musicChannel < 100 && channel != musicChannel
    ensures Payload(FaderAddress(channel), [F(bits)]).Some?
    ensures Parse(Payload(FaderAddress(channel), [F(bits)]).value, musicChannel) == Ignored
  {
    var cmd := FaderAddress(channel);
    FloatPayload(cmd, bits);
    var tagged := Osc.StrToBuf(",f") + bits;
    var msg := Osc.StrToBuf(cmd) + tagged;
    PlainFaderAddress(channel);
    ReadPadded(cmd, tagged);
    assert Text(msg, 0, |cmd|) == cmd;
    assert cmd != "node" && cmd != "/" && cmd[1..] == FaderLeaf(channel);
    assert Parse(msg, musicChannel) == ParseLeaf(FaderLeaf(channel), tagged, musicChannel);
    FaderLeafInjective(channel, musicChannel);
    assert FaderLeaf(channel) != "meters/6" by {
      Js.PadTwoDigits(channel);
      assert |FaderLeaf(channel)| == 15;
    }
  }
}
