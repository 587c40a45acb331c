/** Text and byte utilities shared by the server and the client.

    The peers exchange UTF-8 text lines and raw bytes. Text is `string`; on the wire it
    is `seq<byte>`. The string operations here are Python's `str` operations (`strip`,
    `lower`, `startswith`, `split`, `join`, `int`, format specifications, ordering),
    stated for the characters that decoded protocol text can hold: ASCII and the
    replacement character U+FFFD. */
module Text {

  type byte = b: int | 0 <= b < 256

  datatype Option<T> = None | Some(value: T)

  const NEWLINE: byte := 10
  const REPLACEMENT: char := '\U{FFFD}'

  function Min(a: int, b: int): int { if a <= b then a else b }

  predicate IsAscii(c: char) { c as int < 128 }

  predicate AllAscii(s: string) { forall i :: 0 <= i < |s| ==> IsAscii(s[i]) }

  /** Python's `str.isspace()` for one character. */
  predicate IsSpace(c: char) {
    || c == ' ' || '\t' <= c <= '\r' || '\U{1c}' <= c <= '\U{1f}'
    || c == '\U{85}' || c == '\U{a0}' || c == '\U{1680}' || '\U{2000}' <= c <= '\U{200a}'
    || c == '\U{2028}' || c == '\U{2029}' || c == '\U{202f}' || c == '\U{205f}' || c == '\U{3000}'
  }

  predicate NoSpace(s: string) { forall i :: 0 <= i < |s| ==> !IsSpace(s[i]) }

  // ----- slicing facts, stated generically so that the elements stay opaque -----

  lemma TakeDrop<T>(s: seq<T>, k: nat)
    requires k <= |s|
    ensures s[..k] + s[k..] == s
  {
  }

  lemma TakeAll<T>(s: seq<T>)
    ensures s[..|s|] == s
  {
  }

  lemma TakeTake<T>(s: seq<T>, i: nat)
    requires i < |s|
    ensures s[..i + 1][..i] == s[..i] && s[..i + 1][i] == s[i]
  {
  }

  lemma DropLastConcat<T>(a: seq<T>, b: seq<T>)
    requires b != []
    ensures (a + b)[..|a + b| - 1] == a + b[..|b| - 1] && (a + b)[|a + b| - 1] == b[|b| - 1]
  {
  }

  lemma Regroup<T>(a: seq<T>, s: seq<T>, b: seq<T>, c: seq<T>, d: seq<T>)
    ensures a + s + b + s + c + s + d == a + s + (b + s + (c + s + d))
  {
  }

  lemma Associative<T>(a: seq<T>, b: seq<T>, c: seq<T>)
    ensures a + b + c == a + (b + c)
  {
  }

  lemma DropDrop<T>(s: seq<T>, i: nat, j: nat)
    requires i + j <= |s|
    ensures s[i..][j..] == s[i + j..]
  {
  }

  lemma DropCons<T>(s: seq<T>, k: nat)
    requires k < |s|
    ensures s[k..] == [s[k]] + s[k + 1..]
  {
  }

  lemma TakeConcat<T>(a: seq<T>, b: seq<T>)
    ensures (a + b)[..|a|] == a && (a + b)[|a|..] == b
  {
  }

  lemma ConsDrop<T>(x: T, s: seq<T>)
    ensures ([x] + s)[0] == x && ([x] + s)[1..] == s
  {
  }

  /** Flattens a sequence of byte chunks. */
  function Flatten(chunks: seq<seq<byte>>): seq<byte> {
    if chunks == [] then [] else Flatten(chunks[..|chunks| - 1]) + chunks[|chunks| - 1]
  }

  lemma {:induction false} FlattenCons(c: seq<byte>, chunks: seq<seq<byte>>)
    ensures Flatten([c] + chunks) == c + Flatten(chunks)
    decreases |chunks|
  {
    if chunks == [] {
      assert [c] + chunks == [c];
      TakeTake([c], 0);
    } else {
      var n := |chunks|;
      DropLastConcat([c], chunks);
      FlattenCons(c, chunks[..n - 1]);
    }
  }

  /** `Flatten` splits at any index. */
  lemma {:induction false} FlattenAll(chunks: seq<seq<byte>>, k: nat)
    requires k <= |chunks|
    ensures Flatten(chunks) == Flatten(chunks[..k]) + Flatten(chunks[k..])
    decreases |chunks| - k
  {
    if k < |chunks| {
      FlattenAll(chunks, k + 1);
      TakeTake(chunks, k);
      DropCons(chunks, k);
      FlattenCons(chunks[k], chunks[k + 1..]);
    } else {
      TakeAll(chunks);
      assert chunks[k..] == [];
    }
  }

  // ----- UTF-8 encoding and replacement decoding -----

  /** The UTF-8 encoding of one Unicode scalar value. */
  function EncodeChar(c: char): (r: seq<byte>)
    ensures 1 <= |r| <= 4
    ensures IsAscii(c) ==> r == [c as int]
    ensures !IsAscii(c) ==> forall i :: 0 <= i < |r| ==> r[i] >= 128
  {
    var n := c as int;
    if n < 0x80 then [n]
    else if n < 0x800 then [0xC0 + n / 64, 0x80 + n % 64]
    else if n < 0x10000 then [0xE0 + n / 4096, 0x80 + (n / 64) % 64, 0x80 + n % 64]
    else [0xF0 + n / 262144, 0x80 + (n / 4096) % 64, 0x80 + (n / 64) % 64, 0x80 + n % 64]
  }

  /** The encodings of the characters of `s`, one per character. */
  function CharBytes(s: string): seq<seq<byte>> {
    seq(|s|, i requires 0 <= i < |s| => EncodeChar(s[i]))
  }

  /** `text.encode('utf-8')`: the encodings of its characters, in order. */
  function Encode(s: string): seq<byte> {
    Flatten(CharBytes(s))
  }

  lemma CharBytesAppend(a: string, b: string)
    ensures CharBytes(a + b) == CharBytes(a) + CharBytes(b)
  {
    var l, r := CharBytes(a + b), CharBytes(a) + CharBytes(b);
    assert |l| == |r|;
    forall i | 0 <= i < |l| ensures l[i] == r[i] {
      if i < |a| { assert (a + b)[i] == a[i]; } else { assert (a + b)[i] == b[i - |a|]; }
    }
  }

  lemma FlattenAppend(x: seq<seq<byte>>, y: seq<seq<byte>>)
    ensures Flatten(x + y) == Flatten(x) + Flatten(y)
  {
    FlattenAll(x + y, |x|);
    TakeConcat(x, y);
  }

  lemma EncodeAppend(a: string, b: string)
    ensures Encode(a + b) == Encode(a) + Encode(b)
  {
    CharBytesAppend(a, b);
    FlattenAppend(CharBytes(a), CharBytes(b));
  }

  /** The encoding of one more character. */
  lemma EncodeSnoc(s: string, c: char)
    ensures Encode(s + [c]) == Encode(s) + EncodeChar(c)
  {
    EncodeAppend(s, [c]);
    var one := CharBytes([c]);
    assert one == [EncodeChar(c)];
    assert one[..0] == [];
    assert Flatten(one) == Flatten(one[..0]) + one[0];
  }

  /** ASCII text encodes to its code points, one byte each, and only a newline character
      encodes to a newline byte. */
  lemma {:induction false} EncodeFacts(s: string)
    ensures AllAscii(s) ==> |Encode(s)| == |s| && forall i :: 0 <= i < |s| ==> Encode(s)[i] == s[i] as int
    ensures NEWLINE in Encode(s) <==> '\n' in s
    decreases |s|
  {
    if s == [] {
      assert CharBytes(s) == [];
    } else {
      var p, c := s[..|s| - 1], s[|s| - 1];
      assert s == p + [c];
      EncodeFacts(p);
      EncodeSnoc(p, c);
      assert '\n' in s <==> '\n' in p || c == '\n';
      assert NEWLINE in EncodeChar(c) <==> c == '\n';
      if AllAscii(s) {
        assert AllAscii(p);
        forall i | 0 <= i < |s| ensures Encode(s)[i] == s[i] as int {
          if i < |p| { assert s[i] == p[i]; }
        }
      }
    }
  }

  /** One byte decoded with `errors='replace'`: bytes outside ASCII become U+FFFD. */
  function DecodeByte(b: byte): char { if b < 128 then b as char else REPLACEMENT }

  /** `data.decode('utf-8', errors='replace')` for the bytes of protocol text. */
  function Decode(bs: seq<byte>): string {
    seq(|bs|, i requires 0 <= i < |bs| => DecodeByte(bs[i]))
  }

  /** Decoding undoes encoding on ASCII text. */
  lemma DecodeEncode(s: string)
    requires AllAscii(s)
    ensures Decode(Encode(s)) == s
  {
    EncodeFacts(s);
  }

  // ----- strip, lower, prefixes -----

  /** `s.lstrip()`. */
  function StripLeft(s: string): (r: string)
    ensures |r| <= |s|
  {
    if s != [] && IsSpace(s[0]) then StripLeft(s[1..]) else s
  }

  /** `s.rstrip()`. */
  function StripRight(s: string): (r: string)
    ensures |r| <= |s|
  {
    if s != [] && IsSpace(s[|s| - 1]) then StripRight(s[..|s| - 1]) else s
  }

  /** `s.strip()`. */
  function Strip(s: string): string {
    StripRight(StripLeft(s))
  }

  /** `lstrip` drops leading whitespace only, and keeps a suffix that does not start with
      whitespace. */
  lemma {:induction false} StripLeftFacts(s: string)
    ensures var r := StripLeft(s);
      && r == s[|s| - |r|..] && (r == [] || !IsSpace(r[0]))
      && forall i :: 0 <= i < |s| - |r| ==> IsSpace(s[i])
  {
    if s != [] && IsSpace(s[0]) {
      StripLeftFacts(s[1..]);
    }
  }

  lemma {:induction false} StripRightFacts(s: string)
    ensures var r := StripRight(s);
      && r == s[..|r|] && (r == [] || !IsSpace(r[|r| - 1]))
      && forall i :: |r| <= i < |s| ==> IsSpace(s[i])
  {
    if s != [] && IsSpace(s[|s| - 1]) {
      StripRightFacts(s[..|s| - 1]);
    }
  }

  /** `strip` keeps a slice of its argument that neither starts nor ends with whitespace,
      and drops only whitespace around it. */
  lemma StripFacts(s: string)
    ensures var r := Strip(s);
      && (r == [] || (!IsSpace(r[0]) && !IsSpace(r[|r| - 1])))
      && forall k :: 0 <= k < |r| ==> r[k] in s
  {
    var l := StripLeft(s);
    var r := StripRight(l);
    StripLeftFacts(s);
    StripRightFacts(l);
    var a := |s| - |l|;
    assert r == s[a..a + |r|];
    forall k | 0 <= k < |r| ensures r[k] in s {
      assert r[k] == s[a + k];
    }
  }

  /** Text that neither starts nor ends with whitespace. */
  predicate Bare(s: string) {
    s == [] || (!IsSpace(s[0]) && !IsSpace(s[|s| - 1]))
  }

  /** Text that neither starts nor ends with whitespace is left alone by strip. */
  lemma StripUnchanged(s: string)
    requires Bare(s)
    ensures Strip(s) == s
  {
  }

  lemma StripIdempotent(s: string)
    ensures Strip(Strip(s)) == Strip(s)
  {
    StripFacts(s);
    StripUnchanged(Strip(s));
  }

  function LowerChar(c: char): char { if 'A' <= c <= 'Z' then (c as int + 32) as char else c }

  /** `s.lower()` on ASCII; other characters are kept. */
  function Lower(s: string): (r: string)
    ensures |r| == |s|
  {
    seq(|s|, i requires 0 <= i < |s| => LowerChar(s[i]))
  }

  predicate StartsWith(s: string, p: string) { |p| <= |s| && s[..|p|] == p }

  /** `t in s` for strings. */
  predicate Contains(s: string, t: string) {
    StartsWith(s, t) || (s != [] && Contains(s[1..], t))
  }

  // ----- decimal text -----

  predicate IsDigit(c: char) { '0' <= c <= '9' }

  predicate AllDigits(s: string) { forall i :: 0 <= i < |s| ==> IsDigit(s[i]) }

  function DigitChar(d: int): char
    requires 0 <= d < 10
  {
    ('0' as int + d) as char
  }

  function DigitValue(c: char): int
    requires IsDigit(c)
  {
    c as int - '0' as int
  }

  /** `str(n)` for a non-negative integer: digits, with no leading zero. */
  function Decimal(n: nat): (r: string)
    ensures |r| >= 1 && AllDigits(r)
    ensures |r| == 1 || r[0] != '0'
  {
    if n < 10 then [DigitChar(n)] else Decimal(n / 10) + [DigitChar(n % 10)]
  }

  /** The value of a string of decimal digits. */
  function DigitsValue(s: string): nat
    requires AllDigits(s)
  {
    if s == [] then 0 else DigitsValue(s[..|s| - 1]) * 10 + DigitValue(s[|s| - 1])
  }

  lemma {:induction false} DecimalValue(n: nat)
    ensures DigitsValue(Decimal(n)) == n
  {
    if n >= 10 {
      var d := Decimal(n);
      assert d[..|d| - 1] == Decimal(n / 10);
      DecimalValue(n / 10);
    }
  }

  /** `f"{n:02d}"`: decimal, zero-padded to at least two digits. */
  function Pad2(n: nat): (r: string)
    ensures |r| >= 2 && AllDigits(r)
  {
    if n < 10 then "0" + Decimal(n) else Decimal(n)
  }

  lemma Pad2Value(n: nat)
    ensures DigitsValue(Pad2(n)) == n
  {
    DecimalValue(n);
    if n < 10 {
      var p := Pad2(n);
      assert p[..|p| - 1] == "0";
    }
  }

  /** Zero padding loses nothing: distinct numbers pad to distinct texts. */
  lemma Pad2Injective(m: nat, n: nat)
    requires Pad2(m) == Pad2(n)
    ensures m == n
  {
    Pad2Value(m);
    Pad2Value(n);
  }

  /** `str(i)` for any integer. */
  function IntText(i: int): string {
    if i < 0 then "-" + Decimal(-i) else Decimal(i)
  }

  /** Digits with single underscores between them, the body `int()` accepts. */
  predicate DigitGroups(s: string) {
    && |s| > 0 && IsDigit(s[0]) && IsDigit(s[|s| - 1])
    && (forall i :: 0 <= i < |s| ==> IsDigit(s[i]) || s[i] == '_')
    && (forall i :: 0 <= i < |s| - 1 ==> s[i] == '_' ==> s[i + 1] != '_')
  }

  /** The digits of `s` without its underscores. */
  function DropUnderscores(s: string): (r: string)
    requires forall i :: 0 <= i < |s| ==> IsDigit(s[i]) || s[i] == '_'
    ensures AllDigits(r)
    ensures AllDigits(s) ==> r == s
  {
    if s == [] then []
    else (if s[0] == '_' then [] else [s[0]]) + DropUnderscores(s[1..])
  }

  /** The default of `sys.get_int_max_str_digits()`: `int()` of a decimal string with
      more digits than this raises `ValueError`. Underscores are not counted. */
  const MAX_STR_DIGITS := 4300

  /** `int(s)` in base 10: surrounding whitespace, an optional sign, digit groups of at
      most `MAX_STR_DIGITS` digits in all. */
  function ParseInt(s: string): Option<int> {
    var t := Strip(s);
    if |t| > 0 && (t[0] == '+' || t[0] == '-') then
      if DigitGroups(t[1..]) && |DropUnderscores(t[1..])| <= MAX_STR_DIGITS then
        var v: int := DigitsValue(DropUnderscores(t[1..]));
        Some(if t[0] == '-' then -v else v)
      else None
    else if DigitGroups(t) && |DropUnderscores(t)| <= MAX_STR_DIGITS then
      Some(DigitsValue(DropUnderscores(t)))
    else None
  }

  /** A non-empty string of plain digits within the digit limit parses to its value. */
  lemma ParseDigits(d: string)
    requires |d| >= 1 && AllDigits(d) && |d| <= MAX_STR_DIGITS
    ensures ParseInt(d) == Some(DigitsValue(d))
  {
    assert !IsSpace(d[0]) && !IsSpace(d[|d| - 1]);
    StripUnchanged(d);
    assert d[0] != '+' && d[0] != '-';
    assert DigitGroups(d);
  }

  /** A string of plain digits beyond the digit limit is refused. */
  lemma ParseTooManyDigits(d: string)
    requires AllDigits(d) && |d| > MAX_STR_DIGITS
    ensures ParseInt(d) == None
  {
    assert !IsSpace(d[0]) && !IsSpace(d[|d| - 1]);
    StripUnchanged(d);
    assert d[0] != '+' && d[0] != '-';
  }

  /** Parsing the decimal text of a number gives the number back, when that text is
      within the digit limit. */
  lemma ParseDecimal(n: nat)
    requires |Decimal(n)| <= MAX_STR_DIGITS
    ensures ParseInt(Decimal(n)) == Some(n)
  {
    ParseDigits(Decimal(n));
    DecimalValue(n);
  }

  // ----- split, join, padding -----

  /** The longest prefix of `s` without whitespace. */
  function Word(s: string): (r: string)
    ensures |r| <= |s|
  {
    if s == [] || IsSpace(s[0]) then [] else [s[0]] + Word(s[1..])
  }

  /** `s.split(maxsplit=m)`: whitespace-separated fields; after `m` splits the rest,
      with its leading whitespace dropped, is the last field. */
  function Split(s: string, maxsplit: nat): seq<string>
    decreases |s|
  {
    if s == [] then []
    else if IsSpace(s[0]) then Split(s[1..], maxsplit)
    else if maxsplit == 0 then [s]
    else
      var w := Word(s);
      [w] + Split(s[|w|..], maxsplit - 1)
  }

  lemma {:induction false} WordBefore(w: string, rest: string)
    requires w != [] && NoSpace(w)
    requires rest == [] || IsSpace(rest[0])
    ensures Word(w + rest) == w
  {
    if |w| > 1 {
      assert (w + rest)[1..] == w[1..] + rest;
      WordBefore(w[1..], rest);
    } else {
      assert (w + rest)[1..] == rest;
    }
  }

  /** A field without whitespace followed by one space and more text splits off as the
      first field. */
  lemma SplitField(w: string, rest: string, maxsplit: nat)
    requires w != [] && NoSpace(w)
    ensures Split(w + " " + rest, maxsplit + 1) == [w] + Split(rest, maxsplit)
  {
    var s := w + " " + rest;
    assert s == w + (" " + rest);
    WordBefore(w, " " + rest);
    assert s[|w|..] == " " + rest;
    assert (" " + rest)[1..] == rest;
  }

  /** Once no split is left, the rest is one field. */
  lemma SplitRest(d: string)
    requires d != [] && !IsSpace(d[0])
    ensures Split(d, 0) == [d]
  {
  }

  lemma SplitFourNested(a: string, b: string, c: string, d: string)
    requires a != [] && b != [] && c != [] && d != []
    requires NoSpace(a) && NoSpace(b) && NoSpace(c) && NoSpace(d)
    ensures Split(a + " " + (b + " " + (c + " " + d)), 3) == [a, b, c, d]
  {
    SplitField(c, d, 0);
    SplitRest(d);
    SplitField(b, c + " " + d, 1);
    SplitField(a, b + " " + (c + " " + d), 2);
  }

  /** Four non-empty fields without whitespace, separated by single spaces, split back
      into exactly those four fields. */
  lemma SplitFour(a: string, b: string, c: string, d: string)
    requires a != [] && b != [] && c != [] && d != []
    requires NoSpace(a) && NoSpace(b) && NoSpace(c) && NoSpace(d)
    ensures Split(a + " " + b + " " + c + " " + d, 3) == [a, b, c, d]
  {
    SplitFourNested(a, b, c, d);
    Regroup(a, " ", b, c, d);
  }

  /** `sep.join(xs)`. */
  function Join(xs: seq<string>, sep: string): string {
    if |xs| == 0 then "" else if |xs| == 1 then xs[0] else xs[0] + sep + Join(xs[1..], sep)
  }

  /** `f"{s:<w}"`: `s` padded on the right with spaces to at least `w` characters. */
  function PadRight(s: string, w: nat): (r: string)
    ensures |r| == if |s| < w then w else |s|
    ensures r[..|s|] == s
    ensures forall i :: |s| <= i < |r| ==> r[i] == ' '
  {
    if |s| < w then s + seq(w - |s|, _ => ' ') else s
  }

  // ----- ordering of strings and sorted() of a set -----

  /** Python's `a < b` on strings: lexicographic by code point. */
  predicate Below(a: string, b: string)
    decreases |a|
  {
    |b| > 0 && (|a| == 0 || a[0] < b[0] || (a[0] == b[0] && Below(a[1..], b[1..])))
  }

  lemma {:induction false} BelowIrreflexive(a: string)
    ensures !Below(a, a)
  {
    if |a| > 0 { BelowIrreflexive(a[1..]); }
  }

  lemma {:induction false} BelowTransitive(a: string, b: string, c: string)
    requires Below(a, b) && Below(b, c)
    ensures Below(a, c)
  {
    if |a| > 0 && a[0] == b[0] && b[0] == c[0] {
      BelowTransitive(a[1..], b[1..], c[1..]);
    }
  }

  lemma {:induction false} BelowTotal(a: string, b: string)
    requires a != b
    ensures Below(a, b) || Below(b, a)
  {
    if |a| > 0 && |b| > 0 && a[0] == b[0] {
      assert a == [a[0]] + a[1..] && b == [b[0]] + b[1..];
      BelowTotal(a[1..], b[1..]);
    }
  }

  predicate IsLeast(m: string, s: set<string>) {
    m in s && forall x :: x in s && x != m ==> Below(m, x)
  }

  lemma {:induction false} LeastExists(s: set<string>)
    requires s != {}
    ensures exists m :: IsLeast(m, s)
    decreases |s|
  {
    var y :| y in s;
    if s - {y} == {} {
      assert s == {y};
      assert IsLeast(y, s);
    } else {
      LeastExists(s - {y});
      var m :| IsLeast(m, s - {y});
      if Below(m, y) {
        assert IsLeast(m, s);
      } else {
        BelowTotal(m, y);
        forall x | x in s && x != y ensures Below(y, x) {
          if x != m { BelowTransitive(y, m, x); }
        }
        assert IsLeast(y, s);
      }
    }
  }

  lemma LeastUnique(m: string, n: string, s: set<string>)
    requires IsLeast(m, s) && IsLeast(n, s)
    ensures m == n
  {
    if m != n {
      BelowTransitive(m, n, m);
      BelowIrreflexive(m);
    }
  }

  lemma LeastUniqueAll(s: set<string>)
    ensures forall m, n :: IsLeast(m, s) && IsLeast(n, s) ==> m == n
  {
    forall m, n | IsLeast(m, s) && IsLeast(n, s) ensures m == n {
      LeastUnique(m, n, s);
    }
  }

  /** `sorted(s)`: the elements of `s`, least first. */
  function SortedNames(s: set<string>): seq<string>
    decreases |s|
  {
    if s == {} then []
    else
      LeastExists(s);
      LeastUniqueAll(s);
      var m :| IsLeast(m, s);
      [m] + SortedNames(s - {m})
  }

  /** One step of `sorted`: the least element comes first. */
  lemma SortedNamesUnfold(s: set<string>, m: string)
    requires IsLeast(m, s)
    ensures SortedNames(s) == [m] + SortedNames(s - {m})
  {
    LeastExists(s);
    var m' :| IsLeast(m', s) && SortedNames(s) == [m'] + SortedNames(s - {m'});
    LeastUnique(m, m', s);
  }

  /** `sorted(s)` lists every element of `s` once, in strictly increasing order. */
  lemma {:induction false} SortedNamesSorted(s: set<string>)
    ensures |SortedNames(s)| == |s|
    ensures forall x :: x in s <==> x in SortedNames(s)
    ensures forall i, j :: 0 <= i < j < |SortedNames(s)| ==> Below(SortedNames(s)[i], SortedNames(s)[j])
    decreases |s|
  {
    if s != {} {
      LeastExists(s);
      var m :| IsLeast(m, s);
      SortedNamesUnfold(s, m);
      SortedNamesSorted(s - {m});
      var r := SortedNames(s);
      forall i, j | 0 <= i < j < |r| ensures Below(r[i], r[j]) {
        if i == 0 {
          assert r[j] in s - {m};
        }
      }
    }
  }

  /** The least element of a non-empty set of names, by one pass over it. */
  method Least(s: set<string>) returns (m: string)
    requires s != {}
    ensures IsLeast(m, s)
  {
    m :| m in s;
    var todo := s - {m};
    while todo != {}
      invariant todo <= s && m in s && m !in todo
      invariant forall x :: x in s && x !in todo && x != m ==> Below(m, x)
      decreases |todo|
    {
      var y :| y in todo;
      if Below(y, m) {
        var m0 := m;
        forall x | x in s && x !in todo - {y} && x != y ensures Below(y, x) {
          if x != m0 { BelowTransitive(y, m0, x); }
        }
        m := y;
      } else {
        BelowTotal(m, y);
      }
      todo := todo - {y};
    }
  }

  /** `sorted(s)` by repeated selection of the least remaining name: every element of
      `s` once, in strictly increasing order. */
  method SortNames(s: set<string>) returns (xs: seq<string>)
    ensures |xs| == |s| && forall x :: x in s <==> x in xs
    ensures forall i, j :: 0 <= i < j < |xs| ==> Below(xs[i], xs[j])
    ensures xs == SortedNames(s)
  {
    xs := [];
    var rest := s;
    while rest != {}
      invariant xs + SortedNames(rest) == SortedNames(s)
      decreases |rest|
    {
      var m := Least(rest);
      SortedNamesUnfold(rest, m);
      Associative(xs, [m], SortedNames(rest - {m}));
      xs := xs + [m];
      rest := rest - {m};
    }
    assert SortedNames(rest) == [];
    assert xs == xs + SortedNames(rest) == SortedNames(s);
    SortedNamesSorted(s);
  }
}
