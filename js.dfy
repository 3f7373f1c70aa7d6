/**
 * The JavaScript built-ins the core relies on, restated over Dafny values:
 * integer `toString`, `padStart`, the truncating `%` operator, `String.prototype.split`
 * and `Array.prototype.join` with a one-character separator, `parseInt` without a radix
 * and `Array.prototype.splice`.
 */
module Js {
  import opened Wrappers

  /** `s || ''` and `if (s)` for a string: only the empty string is falsy. */
  predicate Truthy(s: string) { s != "" }

  /** `x || ''` for a nullable string. */
  function OrEmpty(x: Option<string>): (r: string)
    ensures x.None? ==> r == ""
    ensures x.Some? ==> r == x.value
  {
    if x.Some? then x.value else ""
  }

  /** `x ? x : null` for a string field read back from a form: '' becomes null. */
  function OrNull(s: string): (r: Option<string>)
    ensures r.None? <==> s == ""
    ensures r.Some? ==> r.value == s
  {
    if s == "" then None else Some(s)
  }

  // ---------------------------------------------------------------------------
  // Decimal digits, `Number.prototype.toString` on integers

  predicate IsDecimalDigit(c: char) { '0' <= c <= '9' }

  function DigitChar(d: nat): (c: char)
    requires d < 10
    ensures IsDecimalDigit(c) && (c as int) - ('0' as int) == d
  {
    ('0' as int + d) as char
  }

  /** Decimal representation of a natural number, most significant digit first. */
  function NatToString(n: nat): (s: string)
    ensures |s| >= 1
    ensures forall i :: 0 <= i < |s| ==> IsDecimalDigit(s[i])
    ensures n < 10 <==> |s| == 1
    decreases n
  {
    if n < 10 then [DigitChar(n)] else NatToString(n / 10) + [DigitChar(n % 10)]
  }

  /** `n.toString()` for an integer-valued JavaScript number. */
  function IntToString(n: int): (s: string)
    ensures |s| >= 1
    ensures n >= 0 ==> s == NatToString(n)
    ensures n < 0 ==> s == "-" + NatToString(-n)
  {
    if n < 0 then "-" + NatToString(-n) else NatToString(n)
  }

  /** `s.padStart(width, c)`: prepends copies of `c` until `s` is `width` long. */
  function PadStart(s: string, width: nat, c: char): (r: string)
    ensures |r| == if |s| >= width then |s| else width
    ensures r[|r| - |s|..] == s
    ensures forall i :: 0 <= i < |r| - |s| ==> r[i] == c
  {
    if |s| >= width then s else seq(width - |s|, _ => c) + s
  }

  /** A number below 100 pads to exactly its two digits. */
  lemma PadTwoDigits(n: nat)
    requires n < 100
    ensures PadStart(NatToString(n), 2, '0') == [DigitChar(n / 10), DigitChar(n % 10)]
  {
    if n >= 10 {
      assert NatToString(n / 10) == [DigitChar(n / 10)];
    }
  }

  /** JavaScript's `a % b` on integers: the remainder takes the sign of the dividend. */
  function Rem(a: int, b: int): (r: int)
    requires b != 0
    ensures a >= 0 ==> r == a % b
    ensures a < 0 ==> r == -((-a) % b)
  {
    if a >= 0 then a % b else -((-a) % b)
  }

  // ---------------------------------------------------------------------------
  // `split` and `join` with a one-character separator

  /** `s.split(sep)`: never empty; `"".split(sep)` is `[""]`. */
  function Split(s: string, sep: char): (r: seq<string>)
    ensures |r| >= 1
    ensures forall i :: 0 <= i < |r| ==> sep !in r[i]
  {
    if s == [] then [""]
    else if s[0] == sep then [""] + Split(s[1..], sep)
    else
      var rest := Split(s[1..], sep);
      [[s[0]] + rest[0]] + rest[1..]
  }

  /** `segs.join(sep)`. */
  function Join(segs: seq<string>, sep: char): (r: string)
  {
    if |segs| == 0 then ""
    else if |segs| == 1 then segs[0]
    else segs[0] + [sep] + Join(segs[1..], sep)
  }

  lemma {:induction false} SplitNoSeparator(s: string, sep: char)
    requires sep !in s
    ensures Split(s, sep) == [s]
  {
    if s != [] {
      SplitNoSeparator(s[1..], sep);
      assert [s[0]] + s[1..] == s;
    }
  }

  lemma {:induction false} SplitAtSeparator(a: string, sep: char, rest: string)
    requires sep !in a
    ensures Split(a + [sep] + rest, sep) == [a] + Split(rest, sep)
  {
    if a == [] {
      assert a + [sep] + rest == [sep] + rest;
    } else {
      var s := a + [sep] + rest;
      assert s[1..] == a[1..] + [sep] + rest;
      SplitAtSeparator(a[1..], sep, rest);
      assert [a[0]] + a[1..] == a;
    }
  }

  /** Splitting a join gives the segments back when none contains the separator. */
  lemma {:induction false} SplitJoin(segs: seq<string>, sep: char)
    requires |segs| >= 1
    requires forall i :: 0 <= i < |segs| ==> sep !in segs[i]
    ensures Split(Join(segs, sep), sep) == segs
  {
    if |segs| == 1 {
      SplitNoSeparator(segs[0], sep);
    } else {
      SplitAtSeparator(segs[0], sep, Join(segs[1..], sep));
      SplitJoin(segs[1..], sep);
      assert [segs[0]] + segs[1..] == segs;
    }
  }

  /** A join ends with the separator exactly when there are two or more segments and the last is empty. */
  lemma {:induction false} JoinEndsWithSeparator(segs: seq<string>, sep: char)
    requires |segs| >= 1
    requires forall i :: 0 <= i < |segs| ==> sep !in segs[i]
    ensures var j := Join(segs, sep);
      (|j| > 0 && j[|j| - 1] == sep) <==> (|segs| > 1 && segs[|segs| - 1] == "")
  {
    if |segs| > 1 {
      JoinEndsWithSeparator(segs[1..], sep);
      var j := Join(segs, sep);
      var t := Join(segs[1..], sep);
      assert j == segs[0] + [sep] + t;
      if t == [] {
        JoinLength(segs[1..], sep);
        assert j[|j| - 1] == sep;
        assert segs[1..] == [segs[|segs| - 1]];
      } else {
        assert j[|j| - 1] == t[|t| - 1];
      }
    } else {
      assert segs[0] == segs[|segs| - 1];
    }
  }

  lemma {:induction false} JoinLength(segs: seq<string>, sep: char)
    requires |segs| >= 1
    ensures |Join(segs, sep)| >= |segs| - 1
  {
    if |segs| > 1 {
      JoinLength(segs[1..], sep);
    }
  }

  // ---------------------------------------------------------------------------
  // `parseInt(s)` with no radix argument

  /** The characters `parseInt` skips at the start: WhiteSpace and LineTerminator of ECMAScript. */
  predicate IsJsWhitespace(c: char) {
    var k := c as int;
    (9 <= k <= 13) || k == 32 || k == 0xA0 || k == 0x1680 || (0x2000 <= k <= 0x200A)
    || k == 0x2028 || k == 0x2029 || k == 0x202F || k == 0x205F || k == 0x3000 || k == 0xFEFF
  }

  function TrimStart(s: string): (r: string)
  {
    if s != [] && IsJsWhitespace(s[0]) then TrimStart(s[1..]) else s
  }

  /** The value of `c` as a digit in base 10 or 16, or -1 when it is not one. */
  function DigitValue(c: char, radix: nat): (v: int)
    ensures v == -1 || 0 <= v < radix
  {
    if '0' <= c <= '9' then (if (c as int) - ('0' as int) < radix then (c as int) - ('0' as int) else -1)
    else if radix == 16 && 'a' <= c <= 'f' then (c as int) - ('a' as int) + 10
    else if radix == 16 && 'A' <= c <= 'F' then (c as int) - ('A' as int) + 10
    else -1
  }

  /** The longest prefix of `s` made of digits of `radix`. */
  function LeadingDigits(s: string, radix: nat): (r: string)
  {
    if s == [] || DigitValue(s[0], radix) < 0 then [] else [s[0]] + LeadingDigits(s[1..], radix)
  }

  /** `parseInt` skips exactly the leading white space. */
  lemma {:induction false} TrimStartSkipsWhitespace(s: string)
    ensures var r := TrimStart(s);
      |r| <= |s| && r == s[|s| - |r|..]
      && (forall i :: 0 <= i < |s| - |r| ==> IsJsWhitespace(s[i]))
      && (r == [] || !IsJsWhitespace(r[0]))
  {
    if s != [] && IsJsWhitespace(s[0]) {
      TrimStartSkipsWhitespace(s[1..]);
      var r := TrimStart(s);
      forall i | 0 < i < |s| - |r| ensures IsJsWhitespace(s[i]) {
        assert s[i] == s[1..][i - 1];
      }
    }
  }

  /** The digits `parseInt` reads are the longest run of digits at the start. */
  lemma {:induction false} LeadingDigitsLongest(s: string, radix: nat)
    ensures var r := LeadingDigits(s, radix);
      |r| <= |s| && r == s[..|r|]
      && (forall i :: 0 <= i < |r| ==> DigitValue(r[i], radix) >= 0)
      && (|r| < |s| ==> DigitValue(s[|r|], radix) < 0)
  {
    if s != [] && DigitValue(s[0], radix) >= 0 {
      LeadingDigitsLongest(s[1..], radix);
      var r := LeadingDigits(s, radix);
      assert r == [s[0]] + LeadingDigits(s[1..], radix);
      forall i | 0 < i < |r| ensures DigitValue(r[i], radix) >= 0 {
        assert r[i] == LeadingDigits(s[1..], radix)[i - 1];
      }
    }
  }

  function DigitsValue(ds: string, radix: nat): nat
  {
    if ds == [] then 0
    else
      var d := DigitValue(ds[|ds| - 1], radix);
      DigitsValue(ds[..|ds| - 1], radix) * radix + (if d < 0 then 0 else d)
  }

  /**
   * `parseInt(s)`: skips leading white space, takes an optional sign and an optional `0x`
   * prefix (base 16), then the longest run of digits; no digits gives NaN (None).
   */
  function ParseInt(s: string): Option<int>
  {
    ParseSigned(TrimStart(s))
  }

  function ParseSigned(t: string): Option<int>
  {
    if t != [] && t[0] == '-' then
      (match ParseUnsigned(t[1..]) case None => None case Some(v) => Some(-(v as int)))
    else if t != [] && t[0] == '+' then ParseUnsigned(t[1..])
    else ParseUnsigned(t)
  }

  function ParseUnsigned(u: string): Option<nat>
  {
    if |u| >= 2 && u[0] == '0' && (u[1] == 'x' || u[1] == 'X') then ParseDigits(u[2..], 16)
    else ParseDigits(u, 10)
  }

  function ParseDigits(body: string, radix: nat): Option<nat>
  {
    var ds := LeadingDigits(body, radix);
    if ds == [] then None else Some(DigitsValue(ds, radix))
  }

  lemma {:induction false} LeadingDigitsOfDecimal(s: string)
    requires forall i :: 0 <= i < |s| ==> IsDecimalDigit(s[i])
    ensures LeadingDigits(s, 10) == s
  {
    if s != [] {
      LeadingDigitsOfDecimal(s[1..]);
      assert [s[0]] + s[1..] == s;
    }
  }

  lemma {:induction false} NatToStringValue(n: nat)
    ensures DigitsValue(NatToString(n), 10) == n
    decreases n
  {
    var s := NatToString(n);
    if n < 10 {
      assert s[..0] == [];
    } else {
      NatToStringValue(n / 10);
      assert s[..|s| - 1] == NatToString(n / 10);
      assert s[|s| - 1] == DigitChar(n % 10);
    }
  }

  /** `parseInt(n.toString())` gives `n` back for every integer. */
  lemma ParseDecimal(m: nat)
    ensures ParseUnsigned(NatToString(m)) == Some(m)
  {
    var digits := NatToString(m);
    assert |digits| >= 2 ==> IsDecimalDigit(digits[1]);
    LeadingDigitsOfDecimal(digits);
    NatToStringValue(m);
  }

  lemma TrimStartUnchanged(s: string)
    requires s != [] && (IsDecimalDigit(s[0]) || s[0] == '-')
    ensures TrimStart(s) == s
  {
    assert !IsJsWhitespace(s[0]);
  }

  /** `parseInt(n.toString())` gives `n` back for every integer. */
  lemma ParseIntIntToString(n: int)
    ensures ParseInt(IntToString(n)) == Some(n)
  {
    var s := IntToString(n);
    if n < 0 {
      var digits := NatToString(-n);
      assert s[0] == '-' && s[1..] == digits;
      TrimStartUnchanged(s);
      ParseDecimal(-n);
      assert ParseUnsigned(s[1..]) == Some(-n);
      assert ParseInt(s) == ParseSigned(s);
    } else {
      TrimStartUnchanged(s);
      ParseDecimal(n);
      assert ParseUnsigned(s) == Some(n);
      assert ParseInt(s) == ParseSigned(s);
    }
  }

  // ---------------------------------------------------------------------------
  // `Array.prototype.splice`

  /** Where `splice(start, …)` starts: a negative start counts from the end; both ends are clamped. */
  function SpliceStart(len: nat, start: int): (k: nat)
    ensures k <= len
    ensures 0 <= start <= len ==> k == start
  {
    if start < 0 then (if len + start < 0 then 0 else len + start)
    else if start > len then len else start
  }

  /** The array left behind by `a.splice(start, deleteCount, ...items)`. */
  function Splice<T>(a: seq<T>, start: int, deleteCount: int, items: seq<T>): seq<T>
  {
    var k := SpliceStart(|a|, start);
    var d := if deleteCount < 0 then 0 else if deleteCount > |a| - k then |a| - k else deleteCount;
    a[..k] + items + a[k + d..]
  }

  /** The elements `a.splice(start, deleteCount)` returns. */
  function Removed<T>(a: seq<T>, start: int, deleteCount: int): (r: seq<T>)
  {
    var k := SpliceStart(|a|, start);
    var d := if deleteCount < 0 then 0 else if deleteCount > |a| - k then |a| - k else deleteCount;
    a[k..k + d]
  }
}
