/** Models of the parts of Go's `strings`, `strconv` and `unicode` packages that the OBJ
    parser relies on. Go strings are UTF-8 bytes; here a string is its sequence of
    decoded characters. */
module GoText {
  import opened Wrappers

  // ---------------------------------------------------------------- white space

  /** `unicode.IsSpace`: the Latin-1 spaces '\t', '\n', '\v', '\f', '\r', ' ', U+0085, U+00A0
      and the other characters with the Unicode White_Space property. */
  predicate IsSpace(c: char) {
    var n := c as int;
    (9 <= n <= 13) || n == 0x20 || n == 0x85 || n == 0xA0 || n == 0x1680
    || (0x2000 <= n <= 0x200A) || n == 0x2028 || n == 0x2029 || n == 0x202F
    || n == 0x205F || n == 0x3000
  }

  predicate AllSpace(s: string) {
    forall i :: 0 <= i < |s| ==> IsSpace(s[i])
  }

  predicate NoSpace(s: string) {
    forall i :: 0 <= i < |s| ==> !IsSpace(s[i])
  }

  /** The characters of `s` that are not white space, in order. */
  function NonSpace(s: string): string {
    if s == [] then []
    else (if IsSpace(s[0]) then [] else [s[0]]) + NonSpace(s[1..])
  }

  function Concat(words: seq<string>): string {
    if words == [] then [] else words[0] + Concat(words[1..])
  }

  /** Drops the white space at the front of `s`. */
  function TrimLeft(s: string): (t: string)
    ensures |t| <= |s| && t == s[|s| - |t|..]
    ensures AllSpace(s[..|s| - |t|])
    ensures t == [] || !IsSpace(t[0])
  {
    if s == [] || !IsSpace(s[0]) then s else TrimLeft(s[1..])
  }

  /** Drops the white space at the end of `s`. */
  function TrimRight(s: string): (t: string)
    ensures |t| <= |s| && t == s[..|t|]
    ensures AllSpace(s[|t|..])
    ensures t == [] || !IsSpace(t[|t| - 1])
  {
    if s == [] || !IsSpace(s[|s| - 1]) then s else TrimRight(s[..|s| - 1])
  }

  /** `strings.TrimSpace`: `s` without its leading and trailing white space
      (`TrimSpaceSlice` and `TrimSpaceRemovesSpace` state which slice of `s` it is). */
  function TrimSpace(s: string): (t: string)
    ensures |t| <= |s|
    ensures t == [] <==> AllSpace(s)
    ensures t != [] ==> !IsSpace(t[0]) && !IsSpace(t[|t| - 1])
  {
    var l := TrimLeft(s);
    var t := TrimRight(l);
    TrimEnds(s, l, t);
    t
  }

  /** The number of white-space characters `TrimSpace` removes from the front. */
  function Lead(s: string): nat {
    |s| - |TrimLeft(s)|
  }

  /** `TrimSpace(s)` is a slice of `s`, starting after the leading white space. */
  lemma TrimSpaceSlice(s: string)
    ensures Lead(s) + |TrimSpace(s)| <= |s|
    ensures TrimSpace(s) == s[Lead(s)..Lead(s) + |TrimSpace(s)|]
  {
    var l := TrimLeft(s);
    var t := TrimRight(l);
    var lead := Lead(s);
    TrimmedSlice(s, l, t, lead);
    assert TrimSpace(s) == t;
  }

  /** What `TrimSpace(s)` removes on either side is white space. */
  lemma TrimSpaceRemovesSpace(s: string)
    ensures Lead(s) + |TrimSpace(s)| <= |s|
    ensures AllSpace(s[..Lead(s)]) && AllSpace(s[Lead(s) + |TrimSpace(s)|..])
  {
    var l := TrimLeft(s);
    var t := TrimRight(l);
    var lead := Lead(s);
    TrimmedSlice(s, l, t, lead);
    assert |TrimSpace(s)| == |t| by { assert TrimSpace(s) == t; }
  }

  lemma TrimmedSlice(s: string, l: string, t: string, lead: nat)
    requires lead <= |s| && l == s[lead..] && |t| <= |l| && t == l[..|t|]
    requires AllSpace(s[..lead]) && AllSpace(l[|t|..])
    ensures lead + |t| <= |s| && t == s[lead..lead + |t|]
    ensures AllSpace(s[..lead]) && AllSpace(s[lead + |t|..])
  {
    assert s[lead + |t|..] == l[|t|..];
  }

  lemma TrimEnds(s: string, l: string, t: string)
    requires l == TrimLeft(s) && t == TrimRight(l)
    ensures t == [] <==> AllSpace(s)
    ensures t != [] ==> !IsSpace(t[0]) && !IsSpace(t[|t| - 1])
  {
    var i := |s| - |l|;
    SuffixPrefix(s, l, t);
    if t == [] {
      assert l == [];
      forall k | 0 <= k < |s| ensures IsSpace(s[k]) {
        assert s[k] == s[..i][k];
      }
    } else {
      assert s[i] == l[0];
    }
  }

  /** Facts about `t`, a prefix of `l`, which is a suffix of `s`. */
  lemma SuffixPrefix(s: string, l: string, t: string)
    requires |l| <= |s| && l == s[|s| - |l|..]
    requires |t| <= |l| && t == l[..|t|]
    ensures t == s[|s| - |l|..|s| - |l| + |t|]
    ensures s[|s| - |l| + |t|..] == l[|t|..]
    ensures t == [] ==> l[|t|..] == l
  {
  }

  /** The longest prefix of `s` without white space. */
  function Word(s: string): (w: string)
    ensures |w| <= |s| && w == s[..|w|]
    ensures NoSpace(w)
    ensures |w| == |s| || IsSpace(s[|w|])
  {
    if s == [] || IsSpace(s[0]) then [] else [s[0]] + Word(s[1..])
  }

  /** `strings.Fields`: the maximal runs of non-space characters of `s`, in order. */
  function Fields(s: string): (fields: seq<string>)
    ensures forall k :: 0 <= k < |fields| ==> fields[k] != [] && NoSpace(fields[k])
    ensures |s| > 0 && !IsSpace(s[0]) ==> |fields| > 0 && fields[0] == Word(s)
    decreases |s|
  {
    if s == [] then []
    else if IsSpace(s[0]) then Fields(s[1..])
    else
      var w := Word(s);
      [w] + Fields(s[|w|..])
  }

  /** The fields, put back together without separators, are exactly the non-space characters of
      `s`: no character is lost, duplicated or moved. */
  lemma {:induction false} FieldsConcat(s: string)
    ensures Concat(Fields(s)) == NonSpace(s)
    decreases |s|
  {
    if s != [] {
      if IsSpace(s[0]) {
        FieldsConcat(s[1..]);
      } else {
        var w := Word(s);
        FieldsConcat(s[|w|..]);
        NonSpacePrefix(s, w);
        assert ([w] + Fields(s[|w|..]))[1..] == Fields(s[|w|..]);
      }
    }
  }

  /** The non-space characters of `s` start with its leading word `w`. */
  lemma {:induction false} NonSpacePrefix(s: string, w: string)
    requires |w| <= |s| && w == s[..|w|] && NoSpace(w)
    ensures NonSpace(s) == w + NonSpace(s[|w|..])
    decreases |w|
  {
    if w != [] {
      assert s[1..][..|w| - 1] == w[1..];
      NonSpacePrefix(s[1..], w[1..]);
      assert s[1..][|w| - 1..] == s[|w|..];
      assert [s[0]] + w[1..] == w;
    }
  }

  /** A non-empty word without white space is a single field. */
  lemma FieldsOfWord(w: string)
    requires w != [] && NoSpace(w)
    ensures Fields(w) == [w]
  {
    WordOfWord(w);
    assert w[|w|..] == [];
  }

  lemma {:induction false} WordOfWord(w: string)
    requires NoSpace(w)
    ensures Word(w) == w
  {
    if w != [] {
      WordOfWord(w[1..]);
      assert [w[0]] + w[1..] == w;
    }
  }

  /** A white-space character always ends a field: the fields of `a + [c] + b` are those of `a`
      followed by those of `b`. With `FieldsOfWord` this fixes every field as a maximal run of
      non-space characters. */
  lemma {:induction false} FieldsSpaceSplit(a: string, c: char, b: string)
    requires IsSpace(c)
    ensures Fields(a + [c] + b) == Fields(a) + Fields(b)
    decreases |a|
  {
    var s := a + [c] + b;
    if a == [] {
      assert s[0] == c && s[1..] == b;
    } else if IsSpace(a[0]) {
      assert s[0] == a[0] && s[1..] == a[1..] + [c] + b;
      FieldsSpaceSplit(a[1..], c, b);
    } else {
      var w := Word(a);
      WordBeforeSpace(a, c, b);
      assert s[0] == a[0] && s[|w|..] == a[|w|..] + [c] + b;
      FieldsSpaceSplit(a[|w|..], c, b);
    }
  }

  /** A word never reaches past a white-space character. */
  lemma {:induction false} WordBeforeSpace(a: string, c: char, b: string)
    requires IsSpace(c)
    ensures Word(a + [c] + b) == Word(a)
  {
    var s := a + [c] + b;
    if a == [] {
      assert s[0] == c;
    } else {
      assert s[0] == a[0] && s[1..] == a[1..] + [c] + b;
      WordBeforeSpace(a[1..], c, b);
    }
  }

  // ---------------------------------------------------------------- splitting

  /** The inverse of `Split`: the parts joined with `sep` between them. */
  function Join(parts: seq<string>, sep: char): string
    requires |parts| >= 1
  {
    if |parts| == 1 then parts[0] else parts[0] + [sep] + Join(parts[1..], sep)
  }

  /** `strings.Split(s, string(sep))`: the pieces of `s` between occurrences of `sep`.
      There is always at least one piece; the empty string gives `[""]`. */
  function Split(s: string, sep: char): (parts: seq<string>)
    ensures |parts| >= 1
  {
    if s == [] then [[]]
    else
      var rest := Split(s[1..], sep);
      if s[0] == sep then [[]] + rest
      else [[s[0]] + rest[0]] + rest[1..]
  }

  /** The pieces contain no separator, and joining them with it gives `s` back. */
  lemma {:induction false} SplitPieces(s: string, sep: char)
    ensures forall k :: 0 <= k < |Split(s, sep)| ==> sep !in Split(s, sep)[k]
    ensures Join(Split(s, sep), sep) == s
  {
    if s != [] {
      SplitPieces(s[1..], sep);
      var rest := Split(s[1..], sep);
      if s[0] != sep {
        var parts := Split(s, sep);
        assert parts[0] == [s[0]] + rest[0];
        if |rest| > 1 {
          assert parts[1..] == rest[1..];
        }
      }
    }
  }

  /** Splitting the join of separator-free parts gives the parts back. */
  lemma {:induction false} SplitJoin(parts: seq<string>, sep: char)
    requires |parts| >= 1
    requires forall k :: 0 <= k < |parts| ==> sep !in parts[k]
    ensures Split(Join(parts, sep), sep) == parts
  {
    if |parts| == 1 {
      SplitWord(parts[0], sep);
    } else {
      SplitJoin(parts[1..], sep);
      SplitPrefix(parts[0], Join(parts[1..], sep), sep);
    }
  }

  lemma {:induction false} SplitWord(w: string, sep: char)
    requires sep !in w
    ensures Split(w, sep) == [w]
  {
    if w != [] {
      SplitWord(w[1..], sep);
      assert [w[0]] + w[1..] == w;
    }
  }

  lemma {:induction false} SplitPrefix(w: string, t: string, sep: char)
    requires sep !in w
    ensures Split(w + [sep] + t, sep) == [w] + Split(t, sep)
  {
    if w == [] {
      assert w + [sep] + t == [sep] + t;
      assert ([sep] + t)[1..] == t;
    } else {
      SplitPrefix(w[1..], t, sep);
      var s := w + [sep] + t;
      assert s[0] == w[0] && s[0] != sep;
      assert s[1..] == w[1..] + [sep] + t;
      var rest := Split(s[1..], sep);
      assert rest == [w[1..]] + Split(t, sep);
      assert [w[0]] + rest[0] == w;
      assert rest[1..] == Split(t, sep);
    }
  }

  // ---------------------------------------------------------------- integers

  const MinInt64: int := -0x8000_0000_0000_0000
  const MaxInt64: int := 0x7FFF_FFFF_FFFF_FFFF

  /** Go's `int` on a 64-bit platform. */
  predicate IsInt64(n: int) {
    MinInt64 <= n <= MaxInt64
  }

  /** Go's `i - 1` on a 64-bit `int`: two's-complement wrap-around. */
  function Dec64(i: int): (r: int)
    requires IsInt64(i)
    ensures IsInt64(r)
    ensures i != MinInt64 ==> r == i - 1
    ensures i == MinInt64 ==> r == MaxInt64
  {
    (i - 1 - MinInt64) % 0x1_0000_0000_0000_0000 + MinInt64
  }

  /** The `*strconv.NumError` returned by a failed conversion (its `Err` kind is not modelled). */
  datatype NumError = NumError(func: string, num: string)

  predicate IsDigit(c: char) {
    '0' <= c <= '9'
  }

  predicate AllDigits(s: string) {
    forall i :: 0 <= i < |s| ==> IsDigit(s[i])
  }

  function DigitValue(c: char): nat
    requires IsDigit(c)
  {
    c as int - '0' as int
  }

  /** The number a string of decimal digits denotes (most significant digit first). */
  function DigitsValue(s: string): nat
    requires AllDigits(s)
  {
    if s == [] then 0 else 10 * DigitsValue(s[..|s| - 1]) + DigitValue(s[|s| - 1])
  }

  /** The unsigned accumulation loop of `strconv`: `n = n*10 + d` for each digit, failing on
      the first character that is not a digit. */
  function ScanDigits(s: string, acc: nat): (r: Option<nat>)
    ensures r.Some? <==> AllDigits(s)
  {
    if s == [] then Some(acc)
    else if !IsDigit(s[0]) then None
    else ScanDigits(s[1..], 10 * acc + DigitValue(s[0]))
  }

  lemma {:induction false} ScanDigitsValue(p: string, s: string)
    requires AllDigits(p) && AllDigits(s)
    decreases |s|
    ensures AllDigits(p + s)
    ensures ScanDigits(s, DigitsValue(p)) == Some(DigitsValue(p + s))
  {
    if s == [] {
      assert p + s == p;
    } else {
      var p' := p + [s[0]];
      assert p'[..|p'| - 1] == p;
      assert p' + s[1..] == p + s;
      ScanDigitsValue(p', s[1..]);
    }
  }

  /** Optional sign, then one or more decimal digits. */
  predicate IsIntegerSyntax(s: string) {
    var digits := if |s| > 0 && (s[0] == '+' || s[0] == '-') then s[1..] else s;
    |digits| > 0 && AllDigits(digits)
  }

  function IntegerValue(s: string): int
    requires IsIntegerSyntax(s)
  {
    if s[0] == '-' then -(DigitsValue(s[1..]) as int)
    else if s[0] == '+' then DigitsValue(s[1..])
    else DigitsValue(s)
  }

  /** `strconv.Atoi`: scans an optional sign and the digits, then checks the 64-bit range
      (`AtoiSpec` states which strings it accepts). */
  function Atoi(s: string): (r: Result<int, NumError>)
    ensures r.Success? ==> IsInt64(r.value)
    ensures r.Failure? ==> r.error == NumError("Atoi", s)
  {
    if s == [] then Failure(NumError("Atoi", s))
    else
      var neg := s[0] == '-';
      var digits := if s[0] == '+' || s[0] == '-' then s[1..] else s;
      if digits == [] then Failure(NumError("Atoi", s))
      else match ScanDigits(digits, 0)
        case None => Failure(NumError("Atoi", s))
        case Some(u) =>
          var n: int := if neg then -(u as int) else u;
          if IsInt64(n) then Success(n) else Failure(NumError("Atoi", s))
  }

  /** `Atoi` succeeds exactly on an optionally signed decimal numeral whose value fits in a
      64-bit `int`, and then returns that value. */
  lemma AtoiSpec(s: string)
    ensures Atoi(s).Success? <==> IsIntegerSyntax(s) && IsInt64(IntegerValue(s))
    ensures Atoi(s).Success? ==> Atoi(s).value == IntegerValue(s)
  {
    if IsIntegerSyntax(s) {
      AtoiNumeral(s);
    } else {
      AtoiNotNumeral(s);
    }
  }

  lemma AtoiNotNumeral(s: string)
    requires !IsIntegerSyntax(s)
    ensures Atoi(s).Failure?
  {
    if s != [] {
      var digits := if s[0] == '+' || s[0] == '-' then s[1..] else s;
      assert digits == [] || !AllDigits(digits);
    }
  }

  lemma AtoiNumeral(s: string)
    requires IsIntegerSyntax(s)
    ensures Atoi(s).Success? <==> IsInt64(IntegerValue(s))
    ensures Atoi(s).Success? ==> Atoi(s).value == IntegerValue(s)
  {
    var digits := if s[0] == '+' || s[0] == '-' then s[1..] else s;
    ScanFromZero(digits);
    var n: int := if s[0] == '-' then -(DigitsValue(digits) as int) else DigitsValue(digits);
    assert IntegerValue(s) == n;
  }

  /** Scanning from an accumulator of zero yields the value of the digits. */
  lemma ScanFromZero(digits: string)
    requires AllDigits(digits)
    ensures ScanDigits(digits, 0) == Some(DigitsValue(digits))
  {
    ScanDigitsValue([], digits);
    assert [] + digits == digits;
  }

  /** The decimal digits of `n`, most significant first, without leading zeros. */
  function FormatDigits(n: nat): (s: string)
  {
    if n < 10 then ['0' + n as char]
    else FormatDigits(n / 10) + ['0' + (n % 10) as char]
  }

  /** `strconv.Itoa`. */
  function Itoa(n: int): string {
    if n < 0 then ['-'] + FormatDigits(-n) else FormatDigits(n)
  }

  lemma {:induction false} FormatDigitsValue(n: nat)
    ensures |FormatDigits(n)| > 0 && AllDigits(FormatDigits(n))
    ensures DigitsValue(FormatDigits(n)) == n
  {
    var s := FormatDigits(n);
    if n >= 10 {
      FormatDigitsValue(n / 10);
      assert s[..|s| - 1] == FormatDigits(n / 10);
    }
  }

  /** `Atoi` reads back every 64-bit integer that `Itoa` writes. */
  lemma AtoiItoa(n: int)
    requires IsInt64(n)
    ensures Atoi(Itoa(n)) == Success(n)
  {
    if n < 0 {
      var digits := FormatDigits(-n);
      FormatDigitsValue(-n);
      var s := ['-'] + digits;
      assert s[0] == '-' && s[1..] == digits;
      assert IntegerValue(s) == n;
      AtoiNumeral(s);
    } else {
      var digits := FormatDigits(n);
      FormatDigitsValue(n);
      assert IsDigit(digits[0]);
      AtoiNumeral(digits);
    }
  }
}
