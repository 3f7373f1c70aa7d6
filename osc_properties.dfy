/**
 * What the decoder makes of what the encoder writes: the round trip, and how the lenient
 * decoder treats a missing comma, unknown type characters and trailing bytes.
 */
module OscProperties {
  import opened Wrappers
  import opened Bytes
  import Js
  import opened Osc

  /** A string the decoder reads back unchanged: ASCII (decoded one byte per character) without NUL. */
  predicate PlainString(s: string)
  {
    s == [] || ((s[0] as int) < 128 && s[0] != '\0' && PlainString(s[1..]))
  }

  lemma {:induction false} PlainAscii(s: string)
    requires PlainString(s)
    ensures IsAscii(s) && '\0' !in s
  {
    if s != [] {
      PlainAscii(s[1..]);
      assert s == [s[0]] + s[1..];
    }
  }

  lemma {:induction false} PlainConcat(a: string, b: string)
    ensures PlainString(a + b) <==> PlainString(a) && PlainString(b)
  {
    if a == [] {
      assert a + b == b;
    } else {
      assert (a + b)[0] == a[0] && (a + b)[1..] == a[1..] + b;
      PlainConcat(a[1..], b);
    }
  }

  predicate ValidSegment(s: string) { PlainString(s) && '/' !in s }

  /** An address the decoder splits back into the same segments: a trailing empty segment would be stripped. */
  predicate ValidAddress(segs: seq<string>)
  {
    && |segs| >= 1
    && (forall i :: 0 <= i < |segs| ==> ValidSegment(segs[i]))
    && (|segs| == 1 || segs[|segs| - 1] != "")
  }

  predicate ValidArgument(a: Argument)
  {
    match a
    case Int(v) => InInt32(v)
    case Float(_) => true
    case Str(t) => PlainString(t)
  }

  predicate ValidArguments(args: seq<Argument>)
  {
    args == [] || (ValidArgument(args[0]) && ValidArguments(args[1..]))
  }

  predicate ValidMessage(m: Message)
  {
    ValidAddress(m.address) && ValidArguments(m.arguments)
  }

  function TypeCodeOf(a: Argument): TypeCode
  {
    match a
    case Int(_) => TInt
    case Float(_) => TFloat
    case Str(_) => TStr
  }

  lemma {:induction false} ValidEncodes(args: seq<Argument>)
    requires ValidArguments(args)
    ensures EncodeArguments(args).Ok?
  {
    if args != [] {
      ValidEncodes(args[1..]);
    }
  }

  /**
   * A buffer laid out as the encoder lays it out, with three variations the decoder tolerates:
   * the comma before the type tags may be missing, more tag characters may follow the real ones,
   * and more bytes may follow the arguments.
   */
  function Layout(m: Message, comma: bool, extraTags: string, trailing: seq<byte>): seq<byte>
    requires ValidMessage(m)
  {
    ValidEncodes(m.arguments);
    StrToBuf(AddressString(m.address))
    + StrToBuf((if comma then "," else "") + (TypeTags(m.arguments) + extraTags))
    + EncodeArguments(m.arguments).value
    + trailing
  }

  // ---------------------------------------------------------------------------
  // Helpers

  /** A padded plain string at an aligned cursor: the NUL is where the string ends, and the block after it. */
  /** `strToBuf` of a plain string: its characters' codes, then at least one zero. */
  lemma {:induction false} PaddedPlain(s: string)
    requires PlainString(s)
    ensures |Utf8(s)| == |s|
    ensures |StrToBuf(s)| == |s| - |s| % 4 + 4
    ensures StrToBuf(s)[..|s|] == Utf8(s)
    ensures forall i :: 0 <= i < |s| ==> StrToBuf(s)[i] != 0
    ensures StrToBuf(s)[|s|] == 0
  {
    PlainAscii(s);
    Utf8Ascii(s);
    StrToBufContents(s);
    var p := StrToBuf(s);
    forall i | 0 <= i < |s| ensures p[i] != 0 {
      assert p[i] == p[..|s|][i] == Utf8(s)[i] == s[i] as int;
      assert s[i] in s;
    }
  }

  /** A padded plain string from `o` to `next`: its NUL at `k`, its text before it, the block after it. */
  lemma {:induction false} PaddedStringAt(buf: seq<byte>, o: nat, s: string, k: nat, next: nat)
    requires PlainString(s)
    requires k == o + |s| && next == o + |StrToBuf(s)| <= |buf| && buf[o..next] == StrToBuf(s)
    ensures |Utf8(s)| == |s|
    ensures FindNul(buf, o) == Some(k)
    ensures buf[o..k] == Utf8(s)
    ensures Latin1(buf[o..k]) == s
    ensures o % 4 == 0 ==> NextBlock(k) == next
  {
    var p := StrToBuf(s);
    var n := |s|;
    assert |Utf8(s)| == n && |p| == n - n % 4 + 4 && p[..n] == Utf8(s) by {
      PaddedPlain(s);
    }
    assert FindNul(buf, o) == Some(k) by {
      PaddedPlain(s);
      PaddedNul(buf, o, p, n, k);
    }
    assert buf[o..k] == Utf8(s) by {
      assert buf[o..k] == p[..n];
    }
    assert Latin1(buf[o..k]) == s by {
      PlainAscii(s);
      Latin1Utf8Ascii(s);
    }
    if o % 4 == 0 {
      AlignedShift(o, n, k, next);
    }
  }

  lemma {:induction false} PaddedNul(buf: seq<byte>, o: nat, p: seq<byte>, n: nat, k: nat)
    requires n < |p| && o + |p| <= |buf| && buf[o..o + |p|] == p
    requires forall i :: 0 <= i < n ==> p[i] != 0
    requires p[n] == 0
    requires k == o + n
    ensures FindNul(buf, o) == Some(k)
  {
    forall i | o <= i < k ensures buf[i] != 0 {
      assert buf[i] == p[i - o];
    }
    assert buf[k] == p[n];
    FindNulAt(buf, o, k);
  }

  lemma {:induction false} AlignedShift(o: nat, n: nat, k: nat, next: nat)
    requires o % 4 == 0
    requires k == o + n && next == o + (n - n % 4 + 4)
    ensures NextBlock(k) == next
  {
    var q := o / 4;
    assert o == 4 * q;
    assert (4 * q + n) % 4 == n % 4;
  }

  lemma {:induction false} JoinPlain(segs: seq<string>)
    requires forall i :: 0 <= i < |segs| ==> ValidSegment(segs[i])
    ensures PlainString(Js.Join(segs, '/'))
  {
    if |segs| > 1 {
      JoinPlain(segs[1..]);
      assert ValidSegment(segs[0]);
      assert Js.Join(segs, '/') == segs[0] + (['/'] + Js.Join(segs[1..], '/'));
      PlainConcat(['/'], Js.Join(segs[1..], '/'));
      PlainConcat(segs[0], ['/'] + Js.Join(segs[1..], '/'));
    } else if |segs| == 1 {
      assert ValidSegment(segs[0]);
    }
  }

  /** The decoder's address clean-up undoes `'/' + join('/')` on a valid address. */
  lemma {:induction false} NormalizeAddressString(segs: seq<string>)
    requires ValidAddress(segs)
    ensures NormalizeAddress(AddressString(segs)) == (segs, [])
  {
    var a := AddressString(segs);
    var j := Js.Join(segs, '/');
    assert a[0] == '/' && a[1..] == j;
    assert forall i :: 0 <= i < |segs| ==> '/' !in segs[i] by {
      forall i | 0 <= i < |segs| ensures '/' !in segs[i] {
        assert ValidSegment(segs[i]);
      }
    }
    assert !(|j| > 0 && j[|j| - 1] == '/') by {
      Js.JoinEndsWithSeparator(segs, '/');
    }
    assert Js.Split(j, '/') == segs by {
      Js.SplitJoin(segs, '/');
    }
    var none: seq<Warning> := [];
    assert none + none == none;
  }

  lemma {:induction false} TypeTagsPlain(args: seq<Argument>)
    ensures PlainString(TypeTags(args))
    decreases |args|
  {
    if args != [] {
      var init := args[..|args| - 1];
      TypeTagsPlain(init);
      assert TypeTags(args) == TypeTags(init) + [TypeChar(args[|args| - 1])] by {
        TypeTagsSnoc(args, |args| - 1);
        assert args[..|args|] == args;
      }
      PlainConcat(TypeTags(init), [TypeChar(args[|args| - 1])]);
    } else {
      assert TypeTags(args) == [];
    }
  }

  lemma {:induction false} TagOfType(a: Argument)
    ensures (TypeChar(a) as int) < 128 && TagType(TypeChar(a)) == Some(TypeCodeOf(a))
  {
  }

  /** The tag loop reads back one type per argument from the encoder's tag characters. */
  lemma {:induction false} KnownTypesOfTags(args: seq<Argument>)
    ensures AllKnown(Utf8(TypeTags(args)))
    ensures KnownTypes(Utf8(TypeTags(args))) == TypesOf(args)
    ensures UnknownTagWarnings(Utf8(TypeTags(args))) == []
    decreases |args|
  {
    if args != [] {
      var init := args[..|args| - 1];
      var last := args[|args| - 1];
      var c := TypeChar(last);
      TagOfType(last);
      var b: byte := c as int;
      var u := Utf8(TypeTags(init));
      var w := Utf8(TypeTags(args));
      assert AllKnown(u) && KnownTypes(u) == TypesOf(init) && UnknownTagWarnings(u) == [] by {
        KnownTypesOfTags(init);
      }
      assert w == u + [b] by {
        assert TypeTags(args) == TypeTags(init) + [c] by {
          TypeTagsSnoc(args, |args| - 1);
          assert args[..|args|] == args;
        }
        Utf8SnocAscii(TypeTags(init), c);
      }
      assert TagType(b as char) == Some(TypeCodeOf(last));
      assert AllKnown(w) by {
        TagStep(u, b);
      }
      assert KnownTypes(w) == TypesOf(init) + [TypeCodeOf(last)] by {
        TagStep(u, b);
      }
      assert UnknownTagWarnings(w) == [] by {
        TagStep(u, b);
      }
      assert TypesOf(args) == TypesOf(init) + [TypeCodeOf(last)] by {
        TypesOfSnoc(args);
      }
    } else {
      assert TypeTags(args) == [];
    }
  }

  /** Tag characters after the first unknown one add no type and leave the tag partial. */
  lemma {:induction false} KnownTypesThenUnknown(known: seq<byte>, rest: seq<byte>)
    requires AllKnown(known)
    requires rest == [] || TagType(rest[0] as char).None?
    ensures KnownTypes(known + rest) == KnownTypes(known)
    ensures AllKnown(known + rest) <==> rest == []
    ensures UnknownTagWarnings(known + rest) == UnknownTagWarnings(known) + UnknownTagWarnings(rest)
    decreases |rest|
  {
    if rest == [] {
      assert known + rest == known;
      assert UnknownTagWarnings(known) + [] == UnknownTagWarnings(known);
    } else {
      var init := rest[..|rest| - 1];
      var b := rest[|rest| - 1];
      var w := if TagType(b as char).None? then [UnknownType(b as char)] else [];
      assert known + rest == (known + init) + [b];
      assert rest == init + [b];
      assert init == [] || TagType(init[0] as char).None?;
      assert KnownTypes(known + init) == KnownTypes(known)
        && (AllKnown(known + init) <==> init == [])
        && UnknownTagWarnings(known + init) == UnknownTagWarnings(known) + UnknownTagWarnings(init) by {
        KnownTypesThenUnknown(known, init);
      }
      assert !AllKnown(known + rest) by {
        TagStep(known + init, b);
      }
      assert KnownTypes(known + rest) == KnownTypes(known + init) by {
        TagStep(known + init, b);
      }
      assert UnknownTagWarnings(known + rest) == UnknownTagWarnings(known + init) + w by {
        TagStep(known + init, b);
      }
      assert UnknownTagWarnings(rest) == UnknownTagWarnings(init) + w by {
        TagStep(init, b);
      }
      var k := UnknownTagWarnings(known);
      assert (k + UnknownTagWarnings(init)) + w == k + (UnknownTagWarnings(init) + w);
    }
  }

  function TypesOf(args: seq<Argument>): (r: seq<TypeCode>)
    ensures |r| == |args|
  {
    seq(|args|, i requires 0 <= i < |args| => TypeCodeOf(args[i]))
  }

  lemma {:induction false} TypesOfSnoc(args: seq<Argument>)
    requires args != []
    ensures TypesOf(args) == TypesOf(args[..|args| - 1]) + [TypeCodeOf(args[|args| - 1])]
  {
  }

  lemma {:induction false} AlignedAdd(a: nat, b: nat)
    requires a % 4 == 0 && b % 4 == 0
    ensures (a + b) % 4 == 0
  {
  }

  lemma {:induction false} SliceSplit(buf: seq<byte>, o: nat, mid: nat, end: nat, x: seq<byte>, y: seq<byte>)
    requires mid == o + |x| && end == mid + |y| && end <= |buf| && buf[o..end] == x + y
    ensures buf[o..mid] == x && buf[mid..end] == y
  {
    assert buf[o..end][..|x|] == buf[o..mid];
    assert buf[o..end][|x|..] == buf[mid..end];
  }

  lemma {:induction false} ReadEncodedArgument(buf: seq<byte>, o: nat, a: Argument, next: nat)
    requires ValidArgument(a)
    requires EncodeArgument(a).Ok?
    requires o % 4 == 0
    requires next == o + |EncodeArgument(a).value| <= |buf|
    requires buf[o..next] == EncodeArgument(a).value
    ensures ReadArgument(buf, o, TypeCodeOf(a)) == Ok((a, next))
  {
    match a {
      case Int(v) =>
        assert ReadInt32BE(buf[o..o + 4]) == v;
      case Float(bits) =>
      case Str(t) =>
        PaddedStringAt(buf, o, t, o + |t|, next);
    }
  }

  /** One argument read, then the rest: the reader's result is their concatenation. */
  lemma {:induction false} ReadArgumentsCons(buf: seq<byte>, o: nat, types: seq<TypeCode>, a: Argument, next: nat, rest: seq<Argument>, o2: nat)
    requires types != []
    requires ReadArgument(buf, o, types[0]) == Ok((a, next))
    requires ReadArguments(buf, next, types[1..]) == Ok((rest, o2))
    ensures ReadArguments(buf, o, types) == Ok(([a] + rest, o2))
  {
  }

  lemma {:induction false} TypesOfCons(args: seq<Argument>)
    requires args != []
    ensures TypesOf(args)[0] == TypeCodeOf(args[0]) && TypesOf(args)[1..] == TypesOf(args[1..])
  {
  }

  /** The argument reader at an aligned cursor over encoded arguments reads them all back. */
  lemma {:induction false} ReadEncodedArguments(buf: seq<byte>, o: nat, args: seq<Argument>, end: nat)
    requires ValidArguments(args)
    requires EncodeArguments(args).Ok?
    requires o % 4 == 0
    requires end == o + |EncodeArguments(args).value| <= |buf|
    requires buf[o..end] == EncodeArguments(args).value
    ensures ReadArguments(buf, o, TypesOf(args)) == Ok((args, end))
    decreases |args|
  {
    if args != [] {
      var a := args[0];
      var rest := args[1..];
      var head := EncodeArgument(a).value;
      var tail := EncodeArguments(rest).value;
      assert EncodeArguments(args).value == head + tail;
      var next := o + |head|;
      SliceSplit(buf, o, next, end, head, tail);
      ReadEncodedArgument(buf, o, a, next);
      AlignedAdd(o, |head|);
      ReadEncodedArguments(buf, next, rest, end);
      TypesOfCons(args);
      ReadArgumentsCons(buf, o, TypesOf(args), a, next, rest, end);
      assert [a] + rest == args;
    } else {
      assert TypesOf(args) == [];
    }
  }

  // ---------------------------------------------------------------------------
  // The decoder on an encoder layout, part by part

  /** The padded address at the start of the buffer. */
  lemma {:induction false} AddressPart(buf: seq<byte>, segs: seq<string>, addressEnd: nat, na: nat)
    requires ValidAddress(segs)
    requires addressEnd == |AddressString(segs)|
    requires na == |StrToBuf(AddressString(segs))| <= |buf|
    requires buf[0..na] == StrToBuf(AddressString(segs))
    ensures FindNul(buf, 0) == Some(addressEnd)
    ensures NextBlock(addressEnd) == na
    ensures NormalizeAddress(Latin1(buf[..addressEnd])) == (segs, [])
  {
    var addr := AddressString(segs);
    assert PlainString(addr) by {
      JoinPlain(segs);
      assert addr == "/" + Js.Join(segs, '/');
      PlainConcat("/", Js.Join(segs, '/'));
    }
    PaddedStringAt(buf, 0, addr, addressEnd, na);
    assert buf[..addressEnd] == buf[0..addressEnd];
    NormalizeAddressString(segs);
  }

  /** A tag read from `o1` that starts with the comma: the decoder steps over it. */
  lemma {:induction false} CommaSkipped(buf: seq<byte>, o1: nat, tagText: string, tagStart: nat, k: nat)
    requires tagStart == o1 + 1
    requires FindNul(buf, o1) == Some(k) && buf[o1..k] == Utf8("," + tagText)
    ensures o1 < |buf| && buf[o1] == ',' as int
    ensures FindNul(buf, tagStart) == Some(k) && buf[tagStart..k] == Utf8(tagText)
  {
    var u := buf[o1..k];
    assert u == [',' as int] + Utf8(tagText) by {
      Utf8Concat(",", tagText);
      assert Utf8(",") == [',' as int];
    }
    assert buf[o1] == u[0];
    assert buf[tagStart..k] == u[1..];
  }

  /** A tag read from `o1` without the comma: the decoder does not skip its first byte. */
  lemma {:induction false} NoCommaKept(buf: seq<byte>, o1: nat, tagText: string, k: nat)
    requires PlainString(tagText) && (tagText == "" || tagText[0] != ',')
    requires FindNul(buf, o1) == Some(k) && buf[o1..k] == Utf8(tagText)
    ensures o1 < |buf| && buf[o1] != ',' as int
  {
    if tagText != "" {
      var u := buf[o1..k];
      assert (tagText[0] as int) < 128;
      assert Utf8(tagText) == Utf8Char(tagText[0]) + Utf8(tagText[1..]);
      assert buf[o1] == u[0] == tagText[0] as int;
    }
  }

  lemma {:induction false} CommaPlain(comma: bool, tagText: string)
    requires PlainString(tagText)
    ensures PlainString((if comma then "," else "") + tagText)
  {
    PlainConcat(if comma then "," else "", tagText);
  }

  /** The padded type tag from the aligned cursor `o1` to `next`, with or without its comma. */
  lemma {:induction false} TagPart(buf: seq<byte>, o1: nat, next: nat, comma: bool, tagText: string, tagStart: nat, tagEnd: nat)
    requires PlainString(tagText)
    requires !comma ==> tagText == "" || tagText[0] != ','
    requires o1 % 4 == 0
    requires var tb := StrToBuf((if comma then "," else "") + tagText);
      o1 + |tb| == next <= |buf| && buf[o1..next] == tb
    requires tagStart == if comma then o1 + 1 else o1
    requires tagEnd == o1 + |(if comma then "," else "") + tagText|
    ensures tagStart == if o1 < |buf| && buf[o1] == ',' as int then o1 + 1 else o1
    ensures FindNul(buf, tagStart) == Some(tagEnd) && buf[tagStart..tagEnd] == Utf8(tagText)
    ensures NextBlock(tagEnd) == next
  {
    var t := (if comma then "," else "") + tagText;
    assert FindNul(buf, o1) == Some(tagEnd) && buf[o1..tagEnd] == Utf8(t) && NextBlock(tagEnd) == next by {
      CommaPlain(comma, tagText);
      PaddedStringAt(buf, o1, t, tagEnd, next);
    }
    if comma {
      CommaSkipped(buf, o1, tagText, tagStart, tagEnd);
    } else {
      assert t == tagText;
      NoCommaKept(buf, o1, tagText, tagEnd);
    }
  }

  /** The types and warnings the tag loop makes of the real tags followed by `extraTags`. */
  lemma {:induction false} TagContents(args: seq<Argument>, extraTags: string)
    requires PlainString(extraTags)
    requires extraTags == "" || TagType(extraTags[0]).None?
    ensures var tag := Utf8(TypeTags(args) + extraTags);
      && KnownTypes(tag) == TypesOf(args)
      && UnknownTagWarnings(tag) == UnknownTagWarnings(Utf8(extraTags))
      && (AllKnown(tag) <==> extraTags == "")
  {
    KnownTypesOfTags(args);
    Utf8Concat(TypeTags(args), extraTags);
    if extraTags != "" {
      PlainAscii(extraTags);
      Utf8Ascii(extraTags);
      assert Utf8(extraTags)[0] == extraTags[0] as int;
    } else {
      assert Utf8(extraTags) == [];
    }
    KnownTypesThenUnknown(Utf8(TypeTags(args)), Utf8(extraTags));
  }

  lemma {:induction false} TagTextPlain(args: seq<Argument>, extraTags: string)
    requires PlainString(extraTags) && (extraTags == "" || extraTags[0] != ',')
    ensures PlainString(TypeTags(args) + extraTags)
    ensures TypeTags(args) + extraTags == "" || (TypeTags(args) + extraTags)[0] != ','
  {
    TypeTagsPlain(args);
    PlainConcat(TypeTags(args), extraTags);
    if args != [] {
      assert (TypeTags(args) + extraTags)[0] == TypeChar(args[0]);
    } else {
      assert TypeTags(args) + extraTags == extraTags;
    }
  }

  /** The warnings the decoder logs on a `Layout`: unknown tags, a length mismatch, a partial message. */
  function LayoutWarnings(extraTags: string, size: nat, total: nat): seq<Warning>
  {
    UnknownTagWarnings(Utf8(extraTags))
    + (if size == total then [] else [LengthMismatch(size, total)])
    + (if extraTags == "" then [] else [PartialArguments])
  }

  /**
   * Decoding a buffer laid out by the encoder gives the message back. A missing comma changes
   * nothing; tag characters starting with an unknown one each log a warning and mark the message
   * partial, with the known arguments still read; extra bytes after the arguments only log a
   * length mismatch, the message ending where the encoded part ends.
   */
  lemma {:induction false} DecodeLayout(buf: seq<byte>, m: Message, comma: bool, extraTags: string, trailing: seq<byte>)
    requires ValidMessage(m)
    requires PlainString(extraTags)
    requires extraTags == "" || (TagType(extraTags[0]).None? && extraTags[0] != ',')
    requires buf == Layout(m, comma, extraTags, trailing)
    ensures Decode(buf) == Ok(Decoded(m, |buf| - |trailing|, LayoutWarnings(extraTags, |buf| - |trailing|, |buf|)))
  {
    ValidEncodes(m.arguments);
    var ab := StrToBuf(AddressString(m.address));
    var tb := StrToBuf((if comma then "," else "") + (TypeTags(m.arguments) + extraTags));
    var e := EncodeArguments(m.arguments).value;
    var na := |ab|;
    var argStart := na + |tb|;
    var argEnd := argStart + |e|;
    FourParts(buf, ab, tb, e, trailing, na, argStart, argEnd);
    DecodeParts(buf, m, comma, extraTags, na, argStart, argEnd);
    DecodedUpTo(buf, m, extraTags, argEnd, trailing);
  }

  lemma {:induction false} DecodedUpTo(buf: seq<byte>, m: Message, extraTags: string, argEnd: nat, trailing: seq<byte>)
    requires Decode(buf) == Ok(Decoded(m, argEnd, LayoutWarnings(extraTags, argEnd, |buf|)))
    requires |buf| == argEnd + |trailing|
    ensures Decode(buf) == Ok(Decoded(m, |buf| - |trailing|, LayoutWarnings(extraTags, |buf| - |trailing|, |buf|)))
  {
  }

  /** `DecodeLayout` with the buffer given by where its three encoded parts end. */
  lemma {:induction false} DecodeParts(buf: seq<byte>, m: Message, comma: bool, extraTags: string, na: nat, argStart: nat, argEnd: nat)
    requires ValidMessage(m)
    requires PlainString(extraTags)
    requires extraTags == "" || (TagType(extraTags[0]).None? && extraTags[0] != ',')
    requires EncodeArguments(m.arguments).Ok?
    requires na == |StrToBuf(AddressString(m.address))| && na <= argStart <= argEnd <= |buf|
    requires buf[0..na] == StrToBuf(AddressString(m.address))
    requires buf[na..argStart] == StrToBuf((if comma then "," else "") + (TypeTags(m.arguments) + extraTags))
    requires argEnd == argStart + |EncodeArguments(m.arguments).value|
    requires buf[argStart..argEnd] == EncodeArguments(m.arguments).value
    ensures Decode(buf) == Ok(Decoded(m, argEnd, LayoutWarnings(extraTags, argEnd, |buf|)))
  {
    var addressEnd := |AddressString(m.address)|;
    var tagStart := if comma then na + 1 else na;
    var tagEnd := na + |(if comma then "," else "") + (TypeTags(m.arguments) + extraTags)|;
    HeaderParts(buf, m, comma, extraTags, na, argStart, addressEnd, tagStart, tagEnd);
    ArgumentPart(buf, m, extraTags, tagStart, tagEnd, argStart, argEnd);
    DecodeFromParts(buf, m, extraTags, addressEnd, na, tagStart, tagEnd, argStart, argEnd);
  }

  /** The address and the type tag of a layout, as the decoder finds them. */
  lemma {:induction false} HeaderParts(buf: seq<byte>, m: Message, comma: bool, extraTags: string, na: nat, argStart: nat,
                                      addressEnd: nat, tagStart: nat, tagEnd: nat)
    requires ValidAddress(m.address)
    requires PlainString(extraTags) && (extraTags == "" || extraTags[0] != ',')
    requires na == |StrToBuf(AddressString(m.address))| && na <= argStart <= |buf|
    requires buf[0..na] == StrToBuf(AddressString(m.address))
    requires buf[na..argStart] == StrToBuf((if comma then "," else "") + (TypeTags(m.arguments) + extraTags))
    requires addressEnd == |AddressString(m.address)|
    requires tagStart == if comma then na + 1 else na
    requires tagEnd == na + |(if comma then "," else "") + (TypeTags(m.arguments) + extraTags)|
    ensures FindNul(buf, 0) == Some(addressEnd) && NormalizeAddress(Latin1(buf[..addressEnd])) == (m.address, [])
    ensures NextBlock(addressEnd) == na
    ensures tagStart == if na < |buf| && buf[na] == ',' as int then na + 1 else na
    ensures FindNul(buf, tagStart) == Some(tagEnd) && buf[tagStart..tagEnd] == Utf8(TypeTags(m.arguments) + extraTags)
    ensures NextBlock(tagEnd) == argStart
  {
    AddressPart(buf, m.address, addressEnd, na);
    TagTextPlain(m.arguments, extraTags);
    TagPart(buf, na, argStart, comma, TypeTags(m.arguments) + extraTags, tagStart, tagEnd);
  }

  /** The arguments of a layout once the header is read, and what its type tag tells the decoder. */
  lemma {:induction false} ArgumentPart(buf: seq<byte>, m: Message, extraTags: string, tagStart: nat, tagEnd: nat,
                                       argStart: nat, argEnd: nat)
    requires ValidArguments(m.arguments)
    requires PlainString(extraTags)
    requires extraTags == "" || TagType(extraTags[0]).None?
    requires tagStart <= tagEnd <= |buf| && buf[tagStart..tagEnd] == Utf8(TypeTags(m.arguments) + extraTags)
    requires NextBlock(tagEnd) == argStart
    requires EncodeArguments(m.arguments).Ok?
    requires argEnd == argStart + |EncodeArguments(m.arguments).value| <= |buf|
    requires buf[argStart..argEnd] == EncodeArguments(m.arguments).value
    ensures ReadArguments(buf, argStart, KnownTypes(buf[tagStart..tagEnd])) == Ok((m.arguments, argEnd))
    ensures NextBlock(argEnd) - 4 == argEnd
    ensures UnknownTagWarnings(buf[tagStart..tagEnd]) == UnknownTagWarnings(Utf8(extraTags))
    ensures AllKnown(buf[tagStart..tagEnd]) <==> extraTags == ""
  {
    TagContents(m.arguments, extraTags);
    ReadEncodedArguments(buf, argStart, m.arguments, argEnd);
    AlignedEnd(argStart, |EncodeArguments(m.arguments).value|, argEnd);
  }

  lemma {:induction false} AlignedEnd(a: nat, b: nat, c: nat)
    requires a % 4 == 0 && b % 4 == 0 && c == a + b
    ensures NextBlock(c) - 4 == c
  {
  }

  /** The decoder's result, given what each of its stages finds. */
  lemma {:induction false} DecodeFromParts(buf: seq<byte>, m: Message, extraTags: string, addressEnd: nat, na: nat,
                                          tagStart: nat, tagEnd: nat, argStart: nat, argEnd: nat)
    requires FindNul(buf, 0) == Some(addressEnd) && NormalizeAddress(Latin1(buf[..addressEnd])) == (m.address, [])
    requires NextBlock(addressEnd) == na
    requires tagStart == if na < |buf| && buf[na] == ',' as int then na + 1 else na
    requires FindNul(buf, tagStart) == Some(tagEnd)
    requires NextBlock(tagEnd) == argStart
    requires ReadArguments(buf, argStart, KnownTypes(buf[tagStart..tagEnd])) == Ok((m.arguments, argEnd))
    requires NextBlock(argEnd) - 4 == argEnd
    requires UnknownTagWarnings(buf[tagStart..tagEnd]) == UnknownTagWarnings(Utf8(extraTags))
    requires AllKnown(buf[tagStart..tagEnd]) <==> extraTags == ""
    ensures Decode(buf) == Ok(Decoded(m, argEnd, LayoutWarnings(extraTags, argEnd, |buf|)))
  {
    DecodeStages(buf, addressEnd, na, tagStart, tagEnd, argStart, m.arguments, argEnd);
    AssembleLayout(Latin1(buf[..addressEnd]), buf[tagStart..tagEnd], m, argEnd, |buf|, extraTags);
  }

  lemma {:induction false} FourParts(buf: seq<byte>, a: seq<byte>, b: seq<byte>, c: seq<byte>, d: seq<byte>, i: nat, j: nat, k: nat)
    requires buf == a + b + c + d
    requires i == |a| && j == i + |b| && k == j + |c|
    ensures k <= |buf| && buf[0..i] == a && buf[i..j] == b && buf[j..k] == c
    ensures |buf| == k + |d|
  {
  }

  /** The decoder's three stages, each given by where it stops. */
  lemma {:induction false} DecodeStages(buf: seq<byte>, addressEnd: nat, na: nat, tagStart: nat, tagEnd: nat, argStart: nat,
                                       args: seq<Argument>, o3: nat)
    requires FindNul(buf, 0) == Some(addressEnd)
    requires NextBlock(addressEnd) == na
    requires tagStart == if na < |buf| && buf[na] == ',' as int then na + 1 else na
    requires FindNul(buf, tagStart) == Some(tagEnd)
    requires NextBlock(tagEnd) == argStart
    requires ReadArguments(buf, argStart, KnownTypes(buf[tagStart..tagEnd])) == Ok((args, o3))
    ensures Decode(buf) == Ok(Assemble(Latin1(buf[..addressEnd]), buf[tagStart..tagEnd], args, o3, |buf|))
  {
  }

  lemma {:induction false} AssembleLayout(address: string, tag: seq<byte>, m: Message, o3: nat, size: nat, extraTags: string)
    requires NormalizeAddress(address) == (m.address, [])
    requires NextBlock(o3) - 4 == o3
    requires UnknownTagWarnings(tag) == UnknownTagWarnings(Utf8(extraTags))
    requires AllKnown(tag) <==> extraTags == ""
    ensures Assemble(address, tag, m.arguments, o3, size) == Decoded(m, o3, LayoutWarnings(extraTags, o3, size))
  {
    var w := UnknownTagWarnings(tag);
    var none: seq<Warning> := [];
    var mismatch := if o3 != size then [LengthMismatch(o3, size)] else [];
    assert w + mismatch + none == w + mismatch;
  }

  /** `oscMessageFromBuffer(oscMessageToBuffer(m))` gives `m` back, without any warning. */
  lemma {:induction false} DecodeEncode(m: Message)
    requires ValidMessage(m)
    ensures Encode(m).Ok?
    ensures Decode(Encode(m).value) == Ok(Decoded(m, |Encode(m).value|, []))
  {
    var none: seq<byte> := [];
    EncodeIsLayout(m, none);
    var buf := Encode(m).value;
    assert Decode(buf) == Ok(Decoded(m, |buf| - |none|, LayoutWarnings("", |buf| - |none|, |buf|))) by {
      DecodeLayout(buf, m, true, "", none);
    }
    DecodedWhole(buf, m, none);
  }

  /** The encoder writes the layout with the comma, no extra tags and nothing after the arguments. */
  lemma {:induction false} EncodeIsLayout(m: Message, none: seq<byte>)
    requires ValidMessage(m)
    requires none == []
    ensures Encode(m).Ok? && Encode(m).value == Layout(m, true, "", none)
  {
    ValidEncodes(m.arguments);
    assert TypeTags(m.arguments) + "" == TypeTags(m.arguments);
    var e := EncodeArguments(m.arguments).value;
    var header := StrToBuf(AddressString(m.address)) + StrToBuf("," + TypeTags(m.arguments));
    assert header + e + none == header + e;
  }

  lemma {:induction false} DecodedWhole(buf: seq<byte>, m: Message, none: seq<byte>)
    requires none == []
    requires Decode(buf) == Ok(Decoded(m, |buf| - |none|, LayoutWarnings("", |buf| - |none|, |buf|)))
    ensures Decode(buf) == Ok(Decoded(m, |buf|, []))
  {
    var size := |buf| - |none|;
    assert size == |buf|;
    assert UnknownTagWarnings(Utf8("")) == [] by {
      assert Utf8("") == [];
    }
    assert LayoutWarnings("", size, |buf|) == [];
  }

  /** An encoding only fails on an int outside the int32 range. */
  lemma {:induction false} EncodeFailsOnlyOutOfRange(m: Message)
    ensures Encode(m).Err? <==> exists i :: 0 <= i < |m.arguments| && m.arguments[i].Int? && !InInt32(m.arguments[i].value)
  {
    EncodeArgumentsOk(m.arguments);
    if Encode(m).Err? {
      var i :| 0 <= i < |m.arguments| && !EncodeArgument(m.arguments[i]).Ok?;
      assert m.arguments[i].Int?;
    } else {
      forall i | 0 <= i < |m.arguments| && m.arguments[i].Int? ensures InInt32(m.arguments[i].value) {
        assert EncodeArgument(m.arguments[i]).Ok?;
      }
    }
  }
}
