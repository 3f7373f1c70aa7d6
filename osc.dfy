/**
 * The OSC-style wire codec of the show-control server (src/server/osc.ts).
 *
 * A message is an address (a list of path segments, sent as "/seg1/seg2") and a list of
 * int, float and string arguments. The encoder follows the OSC-string, OSC Type Tag String and
 * OSC Message definitions of the Open Sound Control 1.0 specification: every string is
 * NUL-terminated and zero-padded to a multiple of 4 bytes, ints are 4 big-endian bytes in two's
 * complement and floats their 4-byte IEEE pattern. The decoder is the source's lenient cursor
 * walk: it keeps the known-type prefix of the type tag, reports a length mismatch without failing
 * and strips one leading and one trailing '/' before splitting the address.
 */
module Osc {
  import opened Wrappers
  import opened Bytes
  import Js

  datatype Argument = Int(value: int) | Float(bits: Float32Bits) | Str(text: string)

  datatype Message = Message(address: seq<string>, arguments: seq<Argument>)

  /** `writeInt32BE` throws a RangeError outside the int32 range. */
  datatype EncodeError = IntOutOfRange(value: int)

  // ---------------------------------------------------------------------------
  // Encoding

  /** `arg.type[0]`: the type-tag character of an argument. */
  function TypeChar(a: Argument): char
  {
    match a
    case Int(_) => 'i'
    case Float(_) => 'f'
    case Str(_) => 's'
  }

  function TypeTags(args: seq<Argument>): (r: string)
    ensures |r| == |args|
  {
    seq(|args|, i requires 0 <= i < |args| => TypeChar(args[i]))
  }

  /** `'/' + message.address.join('/')`. */
  function AddressString(address: seq<string>): string
  {
    "/" + Js.Join(address, '/')
  }

  /**
   * `strToBuf`: the UTF-8 bytes followed by 1 to 4 zero bytes, so that the length is a
   * multiple of 4 and at least one NUL terminates the string.
   */
  function StrToBuf(s: string): (r: seq<byte>)
    ensures |r| % 4 == 0
    ensures |Utf8(s)| < |r| <= |Utf8(s)| + 4
  {
    var b := Utf8(s);
    b + Zeros(4 - |b| % 4)
  }

  /** The padded string holds the UTF-8 bytes, then only zeros. */
  lemma StrToBufContents(s: string)
    ensures StrToBuf(s)[..|Utf8(s)|] == Utf8(s)
    ensures forall i :: |Utf8(s)| <= i < |StrToBuf(s)| ==> StrToBuf(s)[i] == 0
  {
  }

  /** `oscArgumentToBuffer`. */
  function EncodeArgument(a: Argument): (r: Result<seq<byte>, EncodeError>)
    ensures r.Ok? ==> |r.value| % 4 == 0
    ensures a.Int? ==> (r.Ok? <==> InInt32(a.value))
    ensures a.Int? && r.Ok? ==> |r.value| == 4 && ReadInt32BE(r.value) == a.value
    ensures a.Float? ==> r == Ok(a.bits)
  {
    match a
    case Int(v) =>
      if InInt32(v) then (ReadWriteInt32(v); Ok(Int32BE(v))) else Err(IntOutOfRange(v))
    case Float(bits) => Ok(bits)
    case Str(s) => Ok(StrToBuf(s))
  }

  lemma AlignedConcat(a: seq<byte>, b: seq<byte>)
    requires |a| % 4 == 0 && |b| % 4 == 0
    ensures |a + b| % 4 == 0
  {
  }

  /** `Buffer.concat` of the argument buffers; the first int out of range makes it throw. */
  function EncodeArguments(args: seq<Argument>): (r: Result<seq<byte>, EncodeError>)
    ensures r.Ok? ==> |r.value| % 4 == 0
  {
    if args == [] then Ok([])
    else
      match EncodeArgument(args[0])
      case Err(e) => Err(e)
      case Ok(head) =>
        match EncodeArguments(args[1..])
        case Err(e) => Err(e)
        case Ok(tail) => AlignedConcat(head, tail); Ok(head + tail)
  }

  /** The argument list encodes exactly when every argument does. */
  lemma {:induction false} EncodeArgumentsOk(args: seq<Argument>)
    ensures EncodeArguments(args).Ok? <==> forall i :: 0 <= i < |args| ==> EncodeArgument(args[i]).Ok?
  {
    if args != [] {
      EncodeArgumentsOk(args[1..]);
      assert forall i :: 1 <= i < |args| ==> args[i] == args[1..][i - 1];
    }
  }

  /** `oscMessageToBuffer`: padded address, padded type tag, then the argument bytes. */
  function Encode(m: Message): (r: Result<seq<byte>, EncodeError>)
    ensures r.Ok? ==> |r.value| % 4 == 0
  {
    match EncodeArguments(m.arguments)
    case Err(e) => Err(e)
    case Ok(argBytes) =>
      var addressBuf := StrToBuf(AddressString(m.address));
      var typesBuf := StrToBuf("," + TypeTags(m.arguments));
      AlignedConcat(addressBuf, typesBuf);
      AlignedConcat(addressBuf + typesBuf, argBytes);
      Ok(addressBuf + typesBuf + argBytes)
  }

  /** `Buffer.concat(bufs)`. */
  function Flatten(bufs: seq<seq<byte>>): seq<byte>
  {
    if bufs == [] then [] else Flatten(bufs[..|bufs| - 1]) + bufs[|bufs| - 1]
  }

  function PrependBytes(p: seq<byte>, r: Result<seq<byte>, EncodeError>): Result<seq<byte>, EncodeError>
  {
    match r
    case Ok(v) => Ok(p + v)
    case Err(e) => Err(e)
  }

  lemma TypeTagsSnoc(args: seq<Argument>, i: nat)
    requires i < |args|
    ensures TypeTags(args[..i + 1]) == TypeTags(args[..i]) + [TypeChar(args[i])]
  {
  }

  lemma FlattenSnoc(bufs: seq<seq<byte>>, b: seq<byte>)
    ensures Flatten(bufs + [b]) == Flatten(bufs) + b
  {
    assert (bufs + [b])[..|bufs|] == bufs;
  }

  /** One step of the argument loop, against the front-to-back definition of the encoding. */
  lemma EncodeArgumentsStep(args: seq<Argument>, i: nat, done: seq<byte>)
    requires i < |args|
    ensures EncodeArgument(args[i]).Err? ==> EncodeArguments(args[i..]) == Err(EncodeArgument(args[i]).error)
    ensures EncodeArgument(args[i]).Ok? ==>
      PrependBytes(done, EncodeArguments(args[i..]))
      == PrependBytes(done + EncodeArgument(args[i]).value, EncodeArguments(args[i + 1..]))
  {
    assert args[i..][1..] == args[i + 1..];
    if EncodeArgument(args[i]).Ok? {
      PrependBytesTwice(done, EncodeArgument(args[i]).value, EncodeArguments(args[i + 1..]));
    }
  }

  lemma PrependBytesEmpty(r: Result<seq<byte>, EncodeError>)
    ensures PrependBytes([], r) == r
  {
    if r.Ok? {
      assert [] + r.value == r.value;
    }
  }

  lemma PrependBytesTwice(p: seq<byte>, q: seq<byte>, r: Result<seq<byte>, EncodeError>)
    ensures PrependBytes(p, PrependBytes(q, r)) == PrependBytes(p + q, r)
  {
    if r.Ok? {
      assert p + (q + r.value) == (p + q) + r.value;
    }
  }

  /**
   * The string case of `oscArgumentToBuffer`: start one past the byte length and count up
   * to a multiple of 4. The result is the length `strToBuf` gives.
   */
  method PaddedLength(len: nat) returns (n: nat)
    ensures n % 4 == 0 && len < n <= len + 4
    ensures n == len - len % 4 + 4
  {
    n := len + 1;
    while n % 4 != 0
      invariant len + 1 <= n <= len - len % 4 + 4
      decreases len + 4 - n
    {
      n := n + 1;
    }
  }

  /** `oscArgumentToBuffer`, with the padding loop of its string case. */
  method ArgumentToBuffer(a: Argument) returns (r: Result<seq<byte>, EncodeError>)
    ensures r == EncodeArgument(a)
  {
    match a {
      case Float(bits) =>
        r := Ok(bits);
      case Int(v) =>
        if InInt32(v) {
          r := Ok(Int32BE(v));
        } else {
          r := Err(IntOutOfRange(v));
        }
      case Str(s) =>
        var unpadded := Utf8(s);
        var newLength := PaddedLength(|unpadded|);
        r := Ok(unpadded + Zeros(newLength - |unpadded|));
    }
  }

  /** `oscMessageToBuffer`, building the type tag and the argument buffers in one loop. */
  method MessageToBuffer(m: Message) returns (r: Result<seq<byte>, EncodeError>)
    ensures r == Encode(m)
  {
    var addressBuf := StrToBuf(AddressString(m.address));
    var argTypes := ",";
    var argBufs: seq<seq<byte>> := [];
    var args := m.arguments;
    assert args[0..] == args;
    assert Flatten(argBufs) == [];
    PrependBytesEmpty(EncodeArguments(args));
    for i := 0 to |args|
      invariant argTypes == "," + TypeTags(args[..i])
      invariant EncodeArguments(args) == PrependBytes(Flatten(argBufs), EncodeArguments(args[i..]))
    {
      TypeTagsSnoc(args, i);
      argTypes := argTypes + [TypeChar(args[i])];
      var argBuf := ArgumentToBuffer(args[i]);
      EncodeArgumentsStep(args, i, Flatten(argBufs));
      if argBuf.Err? {
        return Err(argBuf.error);
      }
      FlattenSnoc(argBufs, argBuf.value);
      argBufs := argBufs + [argBuf.value];
    }
    assert args[..|args|] == args;
    assert args[|args|..] == [];
    assert Flatten(argBufs) + [] == Flatten(argBufs);
    assert EncodeArguments(args) == Ok(Flatten(argBufs));
    assert argTypes == "," + TypeTags(args);
    var typesBuf := StrToBuf(argTypes);
    var argsBuf := Flatten(argBufs);
    r := Ok(addressBuf + typesBuf + argsBuf);
  }

  // ---------------------------------------------------------------------------
  // Decoding

  datatype TypeCode = TInt | TFloat | TStr

  /** The non-fatal anomalies the decoder logs, in the order it logs them. */
  datatype Warning =
    | UnknownType(tag: char)
    | LengthMismatch(expected: int, actual: nat)
    | NoLeadingSlash
    | TrailingSlash
    | PartialArguments

  /**
   * Why the decoder cannot produce a message: a scan for NUL runs off the end of the buffer
   * (the source then loops forever reading `undefined`), or `readInt32BE`/`readFloatBE` read
   * past the end (the source throws).
   */
  datatype DecodeError = NoTerminator(from: nat) | ReadOutOfRange(at: nat)

  /** The message, the final cursor, and the warnings logged on the way. */
  datatype Decoded = Decoded(message: Message, offset: int, warnings: seq<Warning>)

  /** The cursor after `skipToNextBlock`: always the next multiple of 4 strictly after `o`. */
  function NextBlock(o: nat): (r: nat)
    ensures r % 4 == 0 && o < r <= o + 4
  {
    o - o % 4 + 4
  }

  /** The first NUL at or after `from`, if there is one. */
  function FindNul(buf: seq<byte>, from: nat): (r: Option<nat>)
    ensures r.Some? ==> from <= r.value < |buf| && buf[r.value] == 0
    decreases |buf| - from
  {
    if from >= |buf| then None else if buf[from] == 0 then Some(from) else FindNul(buf, from + 1)
  }

  lemma FindNulAt(buf: seq<byte>, from: nat, k: nat)
    requires from <= k < |buf| && buf[k] == 0
    requires forall i :: from <= i < k ==> buf[i] != 0
    ensures FindNul(buf, from) == Some(k)
    decreases k - from
  {
    if from < k {
      FindNulAt(buf, from + 1, k);
    }
  }

  function TagType(c: char): Option<TypeCode>
  {
    if c == 'i' then Some(TInt) else if c == 'f' then Some(TFloat) else if c == 's' then Some(TStr) else None
  }

  /** Every character of the tag is a known type. */
  predicate AllKnown(tag: seq<byte>)
    decreases |tag|
  {
    tag == [] || (AllKnown(tag[..|tag| - 1]) && TagType(tag[|tag| - 1] as char).Some?)
  }

  /** The types the tag loop pushes: one per character, until the first unknown one. */
  function KnownTypes(tag: seq<byte>): seq<TypeCode>
    decreases |tag|
  {
    if tag == [] then []
    else
      var prefix := tag[..|tag| - 1];
      var t := TagType(tag[|tag| - 1] as char);
      if AllKnown(prefix) && t.Some? then KnownTypes(prefix) + [t.value] else KnownTypes(prefix)
  }

  /** One `UnknownType` warning per unknown tag character, also after the first. */
  function UnknownTagWarnings(tag: seq<byte>): seq<Warning>
    decreases |tag|
  {
    if tag == [] then []
    else
      var c := tag[|tag| - 1] as char;
      UnknownTagWarnings(tag[..|tag| - 1]) + (if TagType(c).None? then [UnknownType(c)] else [])
  }

  /** What one more tag character does to the tag loop's three results. */
  lemma TagStep(tag: seq<byte>, b: byte)
    ensures AllKnown(tag + [b]) == (AllKnown(tag) && TagType(b as char).Some?)
    ensures KnownTypes(tag + [b])
      == KnownTypes(tag) + (if AllKnown(tag) && TagType(b as char).Some? then [TagType(b as char).value] else [])
    ensures UnknownTagWarnings(tag + [b])
      == UnknownTagWarnings(tag) + (if TagType(b as char).None? then [UnknownType(b as char)] else [])
  {
    var t := tag + [b];
    assert t[..|t| - 1] == tag;
    assert t[|t| - 1] == b;
    assert KnownTypes(tag) + [] == KnownTypes(tag);
    assert UnknownTagWarnings(tag) + [] == UnknownTagWarnings(tag);
  }

  /** One argument of the `types.forEach` loop, starting at cursor `o`. */
  function ReadArgument(buf: seq<byte>, o: nat, t: TypeCode): Result<(Argument, nat), DecodeError>
  {
    match t
    case TInt =>
      if o + 4 <= |buf| then Ok((Int(ReadInt32BE(buf[o..o + 4])), o + 4)) else Err(ReadOutOfRange(o))
    case TFloat =>
      if o + 4 <= |buf| then Ok((Float(buf[o..o + 4]), o + 4)) else Err(ReadOutOfRange(o))
    case TStr =>
      match FindNul(buf, o)
      case None => Err(NoTerminator(o))
      case Some(k) => Ok((Str(Latin1(buf[o..k])), NextBlock(k)))
  }

  function ReadArguments(buf: seq<byte>, o: nat, types: seq<TypeCode>): Result<(seq<Argument>, nat), DecodeError>
    decreases |types|
  {
    if types == [] then Ok(([], o))
    else
      match ReadArgument(buf, o, types[0])
      case Err(e) => Err(e)
      case Ok((a, o')) =>
        match ReadArguments(buf, o', types[1..])
        case Err(e) => Err(e)
        case Ok((rest, o'')) => Ok(([a] + rest, o''))
  }

  function PrependArguments(args: seq<Argument>, r: Result<(seq<Argument>, nat), DecodeError>): Result<(seq<Argument>, nat), DecodeError>
  {
    match r
    case Err(e) => Err(e)
    case Ok((rest, o)) => Ok((args + rest, o))
  }

  lemma PrependArgumentsEmpty(r: Result<(seq<Argument>, nat), DecodeError>)
    ensures PrependArguments([], r) == r
  {
    if r.Ok? {
      assert [] + r.value.0 == r.value.0;
    }
  }

  lemma PrependArgumentsTwice(p: seq<Argument>, q: seq<Argument>, r: Result<(seq<Argument>, nat), DecodeError>)
    ensures PrependArguments(p, PrependArguments(q, r)) == PrependArguments(p + q, r)
  {
    if r.Ok? {
      assert p + (q + r.value.0) == (p + q) + r.value.0;
    }
  }

  /** Strips one leading '/' (warning when absent) and one trailing '/', then splits on '/'. */
  function NormalizeAddress(a: string): (seq<string>, seq<Warning>)
  {
    var leading := |a| > 0 && a[0] == '/';
    var a1 := if leading then a[1..] else a;
    var trailing := |a1| > 0 && a1[|a1| - 1] == '/';
    var a2 := if trailing then a1[..|a1| - 1] else a1;
    (Js.Split(a2, '/'), (if leading then [] else [NoLeadingSlash]) + (if trailing then [TrailingSlash] else []))
  }

  /** `oscMessageFromBuffer`, as a function of the buffer. */
  function Decode(buf: seq<byte>): Result<Decoded, DecodeError>
  {
    match FindNul(buf, 0)
    case None => Err(NoTerminator(0))
    case Some(addressEnd) =>
      var o1 := NextBlock(addressEnd);
      var tagStart := if o1 < |buf| && buf[o1] == ',' as int then o1 + 1 else o1;
      match FindNul(buf, tagStart)
      case None => Err(NoTerminator(tagStart))
      case Some(tagEnd) =>
        var tag := buf[tagStart..tagEnd];
        match ReadArguments(buf, NextBlock(tagEnd), KnownTypes(tag))
        case Err(e) => Err(e)
        case Ok((args, o3)) => Ok(Assemble(Latin1(buf[..addressEnd]), tag, args, o3, |buf|))
  }

  /** The message and the warnings once the arguments are read and the cursor is at `o3`. */
  function Assemble(address: string, tag: seq<byte>, args: seq<Argument>, o3: nat, size: nat): Decoded
  {
    var end := NextBlock(o3) - 4;
    var (segments, addressWarnings) := NormalizeAddress(address);
    Decoded(Message(segments, args), end,
            UnknownTagWarnings(tag)
            + (if end != size then [LengthMismatch(end, size)] else [])
            + addressWarnings
            + (if AllKnown(tag) then [] else [PartialArguments]))
  }

  /** `skipToNextBlock`: step 4 from an aligned cursor, then count up to the next multiple of 4. */
  method SkipToNextBlock(offset: nat) returns (o: nat)
    ensures o == NextBlock(offset)
  {
    o := offset;
    if o % 4 == 0 {
      o := o + 4;
    }
    while o % 4 != 0
      invariant NextBlock(offset) - 4 < o <= NextBlock(offset)
      decreases NextBlock(offset) - o
    {
      o := o + 1;
    }
  }

  /** Reads bytes as characters from `start` up to the next NUL (the inner loops of the decoder). */
  method ReadUntilNul(buf: seq<byte>, start: nat) returns (s: string, offset: nat)
    requires start <= |buf|
    ensures FindNul(buf, start).Some? <==> offset < |buf|
    ensures offset < |buf| ==> FindNul(buf, start) == Some(offset) && s == Latin1(buf[start..offset])
  {
    s := "";
    offset := start;
    while offset < |buf| && buf[offset] != 0
      invariant start <= offset <= |buf|
      invariant FindNul(buf, offset) == FindNul(buf, start)
      invariant s == Latin1(buf[start..offset])
    {
      s := s + [buf[offset] as char];
      offset := offset + 1;
    }
  }

  /** The type-tag loop of the decoder: known types until the first unknown one, a warning per unknown one. */
  method ReadTypeTag(buf: seq<byte>, tagStart: nat) returns (types: seq<TypeCode>, canReadPast: bool, warnings: seq<Warning>, offset: nat)
    requires tagStart < |buf|
    ensures FindNul(buf, tagStart).Some? <==> offset < |buf|
    ensures offset < |buf| ==> FindNul(buf, tagStart) == Some(offset)
    ensures offset < |buf| ==> types == KnownTypes(buf[tagStart..offset])
    ensures offset < |buf| ==> canReadPast == AllKnown(buf[tagStart..offset])
    ensures offset < |buf| ==> warnings == UnknownTagWarnings(buf[tagStart..offset])
  {
    types := [];
    canReadPast := true;
    warnings := [];
    offset := tagStart;
    ghost var tag: seq<byte> := [];
    while offset < |buf| && buf[offset] != 0
      invariant tagStart <= offset <= |buf|
      invariant tag == buf[tagStart..offset]
      invariant FindNul(buf, offset) == FindNul(buf, tagStart)
      invariant types == KnownTypes(tag)
      invariant canReadPast == AllKnown(tag)
      invariant warnings == UnknownTagWarnings(tag)
    {
      var c := buf[offset] as char;
      TagStep(tag, buf[offset]);
      match TagType(c) {
        case Some(t) =>
          if canReadPast { types := types + [t]; }
        case None =>
          canReadPast := false;
          warnings := warnings + [UnknownType(c)];
      }
      tag := tag + [buf[offset]];
      offset := offset + 1;
    }
  }

  /** The body of the `types.forEach` loop: one argument read at the cursor. */
  method ReadOneArgument(buf: seq<byte>, offset: nat, t: TypeCode) returns (r: Result<(Argument, nat), DecodeError>)
    ensures r == ReadArgument(buf, offset, t)
  {
    match t {
      case TInt =>
        if offset + 4 > |buf| {
          return Err(ReadOutOfRange(offset));
        }
        r := Ok((Int(ReadInt32BE(buf[offset..offset + 4])), offset + 4));
      case TFloat =>
        if offset + 4 > |buf| {
          return Err(ReadOutOfRange(offset));
        }
        r := Ok((Float(buf[offset..offset + 4]), offset + 4));
      case TStr =>
        if offset >= |buf| {
          return Err(NoTerminator(offset));
        }
        var str, strEnd := ReadUntilNul(buf, offset);
        if strEnd >= |buf| {
          return Err(NoTerminator(offset));
        }
        var next := SkipToNextBlock(strEnd);
        r := Ok((Str(str), next));
    }
  }

  /** The `types.forEach` loop of the decoder. */
  method ReadArgumentsFrom(buf: seq<byte>, start: nat, types: seq<TypeCode>) returns (r: Result<(seq<Argument>, nat), DecodeError>)
    ensures r == ReadArguments(buf, start, types)
  {
    var offset := start;
    var args: seq<Argument> := [];
    PrependArgumentsEmpty(ReadArguments(buf, offset, types));
    assert types[0..] == types;
    for i := 0 to |types|
      invariant ReadArguments(buf, start, types) == PrependArguments(args, ReadArguments(buf, offset, types[i..]))
    {
      assert types[i..][1..] == types[i + 1..];
      var step := ReadOneArgument(buf, offset, types[i]);
      if step.Err? {
        assert ReadArguments(buf, offset, types[i..]) == Err(step.error);
        return Err(step.error);
      }
      var (a, next) := step.value;
      assert ReadArgument(buf, offset, types[i]) == Ok((a, next));
      PrependArgumentsTwice(args, [a], ReadArguments(buf, next, types[i + 1..]));
      args := args + [a];
      offset := next;
    }
    assert types[|types|..] == [];
    assert args + [] == args;
    r := Ok((args, offset));
  }

  /** The address clean-up at the end of the decoder. */
  method SplitAddress(address: string) returns (segments: seq<string>, warnings: seq<Warning>)
    ensures (segments, warnings) == NormalizeAddress(address)
  {
    var a := address;
    var leadingWarning: seq<Warning> := [];
    var trailingWarning: seq<Warning> := [];
    if |a| > 0 && a[0] == '/' {
      a := a[1..];
    } else {
      leadingWarning := [NoLeadingSlash];
    }
    if |a| > 0 && a[|a| - 1] == '/' {
      a := a[..|a| - 1];
      trailingWarning := [TrailingSlash];
    }
    warnings := leadingWarning + trailingWarning;
    segments := Js.Split(a, '/');
  }

  /** The end of the decoder: the final cursor, the length check and the address clean-up. */
  method Finish(address: string, ghost tag: seq<byte>, args: seq<Argument>, offset: nat, size: nat, canReadPast: bool, tagWarnings: seq<Warning>)
    returns (d: Decoded)
    requires canReadPast == AllKnown(tag) && tagWarnings == UnknownTagWarnings(tag)
    ensures d == Assemble(address, tag, args, offset, size)
  {
    var next := SkipToNextBlock(offset);
    var end := next - 4;
    var warnings := tagWarnings;
    if end != size {
      warnings := warnings + [LengthMismatch(end, size)];
    }
    var segments, addressWarnings := SplitAddress(address);
    warnings := warnings + addressWarnings;
    if !canReadPast {
      warnings := warnings + [PartialArguments];
    }
    d := Decoded(Message(segments, args), end, warnings);
  }

  /** `oscMessageFromBuffer`: the cursor walk of the source, proved to compute `Decode`. */
  method MessageFromBuffer(buf: seq<byte>) returns (r: Result<Decoded, DecodeError>)
    ensures r == Decode(buf)
  {
    var address, offset := ReadUntilNul(buf, 0);
    if offset >= |buf| {
      return Err(NoTerminator(0));
    }
    assert FindNul(buf, 0) == Some(offset);
    assert buf[0..offset] == buf[..offset];
    offset := SkipToNextBlock(offset);
    if offset < |buf| && buf[offset] == ',' as int {
      offset := offset + 1;
    }
    var tagStart := offset;
    if offset >= |buf| {
      return Err(NoTerminator(tagStart));
    }
    var types, canReadPast, warnings, tagEnd := ReadTypeTag(buf, tagStart);
    if tagEnd >= |buf| {
      return Err(NoTerminator(tagStart));
    }
    offset := SkipToNextBlock(tagEnd);
    var read := ReadArgumentsFrom(buf, offset, types);
    if read.Err? {
      return Err(read.error);
    }
    var args := read.value.0;
    offset := read.value.1;
    var d := Finish(address, buf[tagStart..tagEnd], args, offset, |buf|, canReadPast, warnings);
    r := Ok(d);
  }
}
