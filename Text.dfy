/**
 * The pieces of Go's `strings` and `strconv` packages that main.go relies on:
 * strings.HasPrefix, strings.Split, strings.TrimSpace, strings.Fields,
 * strconv.Atoi and the `%d` verb of fmt. Strings are sequences of Unicode
 * code points, so a rune count is simply a length.
 */
module Text {
  import opened Common

  predicate HasPrefix(s: string, p: string) {
    |p| <= |s| && s[..|p|] == p
  }

  /** unicode.IsSpace: the Latin-1 spaces and the other White_Space code points. */
  predicate IsSpace(c: char) {
    var n := c as int;
    n == 0x20 || 0x09 <= n <= 0x0D || n == 0x85 || n == 0xA0 || n == 0x1680
    || 0x2000 <= n <= 0x200A || n == 0x2028 || n == 0x2029 || n == 0x202F
    || n == 0x205F || n == 0x3000
  }

  predicate IsDigit(c: char) {
    '0' <= c <= '9'
  }

  predicate AllDigits(s: string) {
    forall i :: 0 <= i < |s| ==> IsDigit(s[i])
  }

  predicate NoSpace(s: string) {
    forall i :: 0 <= i < |s| ==> !IsSpace(s[i])
  }

  // ---------------------------------------------------------------------------
  // strings.Split(s, sep) with a one-character separator

  /** The pieces separated by `sep`, the inverse of Split. */
  function Join(parts: seq<string>, sep: char): string
    decreases |parts|
  {
    if parts == [] then ""
    else if |parts| == 1 then parts[0]
    else parts[0] + [sep] + Join(parts[1..], sep)
  }

  /**
   * Every maximal run between separators, including the empty ones: a string
   * with n separators has n + 1 pieces, and the empty string has one.
   */
  function Split(s: string, sep: char): (parts: seq<string>)
    ensures |parts| >= 1
    ensures forall i :: 0 <= i < |parts| ==> sep !in parts[i]
    ensures Join(parts, sep) == s
    decreases |s|
  {
    if s == [] then [""]
    else
      var rest := Split(s[1..], sep);
      if s[0] == sep then
        assert Join([""] + rest, sep) == [] + [sep] + Join(rest, sep);
        [""] + rest
      else
        var parts := [[s[0]] + rest[0]] + rest[1..];
        assert parts[1..] == rest[1..];
        assert |rest| == 1 ==> Join(parts, sep) == [s[0]] + rest[0];
        assert |rest| > 1 ==> Join(rest, sep) == rest[0] + [sep] + Join(rest[1..], sep);
        parts
  }

  /** Split is the only way of cutting `s` into separator-free pieces that join back to `s`. */
  lemma {:induction false} SplitUnique(s: string, sep: char, parts: seq<string>)
    requires |parts| >= 1
    requires forall i :: 0 <= i < |parts| ==> sep !in parts[i]
    requires Join(parts, sep) == s
    ensures parts == Split(s, sep)
    decreases |s|, |parts[0]|
  {
    if parts[0] == [] {
      if |parts| == 1 {
        assert s == [];
      } else {
        assert s == [sep] + Join(parts[1..], sep);
        assert s[1..] == Join(parts[1..], sep);
        SplitUnique(s[1..], sep, parts[1..]);
      }
    } else {
      var c := parts[0][0];
      var tail := [parts[0][1..]] + parts[1..];
      assert tail[1..] == parts[1..];
      assert c != sep by { assert parts[0][0] in parts[0]; }
      forall i | 0 <= i < |tail| ensures sep !in tail[i] {
        if i == 0 {
          assert forall x :: x in parts[0][1..] ==> x in parts[0];
        } else {
          assert tail[i] == parts[i];
        }
      }
      if |parts| == 1 {
        assert s == parts[0];
        assert Join(tail, sep) == parts[0][1..];
      } else {
        assert s == parts[0] + [sep] + Join(parts[1..], sep);
        assert Join(tail, sep) == parts[0][1..] + [sep] + Join(parts[1..], sep);
      }
      assert s == [c] + Join(tail, sep);
      assert s[1..] == Join(tail, sep);
      SplitUnique(s[1..], sep, tail);
      assert s[0] == c;
      assert [c] + tail[0] == parts[0];
      assert parts == [parts[0]] + parts[1..];
    }
  }

  /** A word without the separator is a single piece. */
  lemma SplitOfWord(word: string, sep: char)
    requires sep !in word
    ensures Split(word, sep) == [word]
  {
    SplitUnique(word, sep, [word]);
  }

  /** A word without the separator, then the separator: the word is the first piece and the rest is split on its own. */
  lemma SplitAfterWord(word: string, sep: char, rest: string)
    requires sep !in word
    ensures Split(word + [sep] + rest, sep) == [word] + Split(rest, sep)
  {
    var parts := [word] + Split(rest, sep);
    assert parts[1..] == Split(rest, sep);
    assert Join(parts, sep) == word + [sep] + rest;
    SplitUnique(word + [sep] + rest, sep, parts);
  }

  // ---------------------------------------------------------------------------
  // strings.TrimSpace

  function TrimLeft(s: string): (r: string)
    ensures |r| <= |s| && r == s[|s| - |r|..]
    ensures forall k :: 0 <= k < |s| - |r| ==> IsSpace(s[k])
    ensures r != [] ==> !IsSpace(r[0])
    decreases |s|
  {
    if s != [] && IsSpace(s[0]) then TrimLeft(s[1..]) else s
  }

  function TrimRight(s: string): (r: string)
    ensures |r| <= |s| && r == s[..|r|]
    ensures forall k :: |r| <= k < |s| ==> IsSpace(s[k])
    ensures r != [] ==> !IsSpace(r[|r| - 1])
    decreases |s|
  {
    if s != [] && IsSpace(s[|s| - 1]) then TrimRight(s[..|s| - 1]) else s
  }

  /** The number of white-space characters at the start of `s`. */
  function Lead(s: string): (n: nat)
    ensures n <= |s|
  {
    |s| - |TrimLeft(s)|
  }

  /**
   * `s` without its leading and trailing white space: what remains is a
   * slice of `s` that neither starts nor ends with white space, and
   * everything cut off on either side is white space.
   */
  function TrimSpace(s: string): (r: string)
    ensures Lead(s) + |r| <= |s| && r == s[Lead(s)..Lead(s) + |r|]
    ensures forall k :: 0 <= k < Lead(s) ==> IsSpace(s[k])
    ensures forall k :: Lead(s) + |r| <= k < |s| ==> IsSpace(s[k])
    ensures r != [] ==> !IsSpace(r[0]) && !IsSpace(r[|r| - 1])
  {
    var l := TrimLeft(s);
    var r := TrimRight(l);
    var i := |s| - |l|;
    assert r == s[i..i + |r|];
    assert forall k :: i + |r| <= k < |s| ==> s[k] == l[k - i];
    r
  }

  // ---------------------------------------------------------------------------
  // strings.Fields

  /** `s` cut at every white-space character (empty pieces included). */
  function SplitAtSpaces(s: string): (parts: seq<string>)
    ensures |parts| >= 1
    ensures forall i :: 0 <= i < |parts| ==> NoSpace(parts[i])
    decreases |s|
  {
    if s == [] then [""]
    else
      var rest := SplitAtSpaces(s[1..]);
      if IsSpace(s[0]) then [""] + rest
      else [[s[0]] + rest[0]] + rest[1..]
  }

  function NonEmpty(parts: seq<string>): (r: seq<string>)
    ensures forall i :: 0 <= i < |r| ==> r[i] in parts && r[i] != []
    decreases |parts|
  {
    if parts == [] then []
    else if parts[0] == [] then NonEmpty(parts[1..])
    else [parts[0]] + NonEmpty(parts[1..])
  }

  function Concat(parts: seq<string>): string
    decreases |parts|
  {
    if parts == [] then "" else parts[0] + Concat(parts[1..])
  }

  /** `s` with every white-space character taken out. */
  function RemoveSpaces(s: string): string
    decreases |s|
  {
    if s == [] then ""
    else if IsSpace(s[0]) then RemoveSpaces(s[1..])
    else [s[0]] + RemoveSpaces(s[1..])
  }

  /**
   * The maximal runs of non-space characters of `s`, in order: every field is
   * non-empty and free of white space, and together they hold every
   * non-space character of `s`.
   */
  function Fields(s: string): (fields: seq<string>)
    ensures forall i :: 0 <= i < |fields| ==> fields[i] != [] && NoSpace(fields[i])
    ensures Concat(fields) == RemoveSpaces(s)
  {
    var parts := SplitAtSpaces(s);
    forall i | 0 <= i < |NonEmpty(parts)| ensures NoSpace(NonEmpty(parts)[i]) {
      var k :| 0 <= k < |parts| && parts[k] == NonEmpty(parts)[i];
    }
    ConcatNonEmpty(parts);
    ConcatSplitAtSpaces(s);
    NonEmpty(parts)
  }

  lemma {:induction false} ConcatNonEmpty(parts: seq<string>)
    ensures Concat(NonEmpty(parts)) == Concat(parts)
    decreases |parts|
  {
    if parts != [] {
      ConcatNonEmpty(parts[1..]);
    }
  }

  lemma {:induction false} ConcatSplitAtSpaces(s: string)
    ensures Concat(SplitAtSpaces(s)) == RemoveSpaces(s)
    decreases |s|
  {
    if s != [] {
      var rest := SplitAtSpaces(s[1..]);
      ConcatSplitAtSpaces(s[1..]);
      if !IsSpace(s[0]) {
        assert Concat(rest) == rest[0] + Concat(rest[1..]);
        var parts := [[s[0]] + rest[0]] + rest[1..];
        assert parts[1..] == rest[1..];
      }
    }
  }

  lemma {:induction false} SplitAtSpacesJoin(a: string, c: char, b: string)
    requires IsSpace(c)
    ensures SplitAtSpaces(a + [c] + b) == SplitAtSpaces(a) + SplitAtSpaces(b)
    decreases |a|
  {
    if a == [] {
      assert a + [c] + b == [c] + b;
      assert ([c] + b)[1..] == b;
    } else {
      assert (a + [c] + b)[1..] == a[1..] + [c] + b;
      SplitAtSpacesJoin(a[1..], c, b);
    }
  }

  lemma {:induction false} NonEmptyAppend(p: seq<string>, q: seq<string>)
    ensures NonEmpty(p + q) == NonEmpty(p) + NonEmpty(q)
    decreases |p|
  {
    if p == [] {
      assert p + q == q;
    } else {
      var t := p[1..];
      assert (p + q)[0] == p[0] && (p + q)[1..] == t + q;
      NonEmptyAppend(t, q);
      if p[0] != [] {
        assert NonEmpty(p + q) == [p[0]] + NonEmpty(t + q);
      }
    }
  }

  /**
   * A white-space character separates fields: the fields of `a c b` are the
   * fields of `a` followed by those of `b`. With FieldOfWord and
   * Fields("") == [] this pins Fields down completely.
   */
  lemma FieldsAtSpace(a: string, c: char, b: string)
    requires IsSpace(c)
    ensures Fields(a + [c] + b) == Fields(a) + Fields(b)
  {
    SplitAtSpacesJoin(a, c, b);
    NonEmptyAppend(SplitAtSpaces(a), SplitAtSpaces(b));
  }

  /** A non-empty word without white space is a single field. */
  lemma {:induction false} FieldOfWord(w: string)
    requires w != [] && NoSpace(w)
    ensures Fields(w) == [w]
  {
    SplitAtSpacesOfWord(w);
    assert NonEmpty([w]) == [w] + NonEmpty([]);
  }

  lemma {:induction false} SplitAtSpacesOfWord(w: string)
    requires NoSpace(w)
    ensures SplitAtSpaces(w) == [w]
    decreases |w|
  {
    if w != [] {
      SplitAtSpacesOfWord(w[1..]);
      assert [w[0]] + w[1..] == w;
    }
  }

  // ---------------------------------------------------------------------------
  // strconv.Atoi and fmt's %d

  function DigitValue(c: char): nat
    requires IsDigit(c)
  {
    c as int - '0' as int
  }

  function DigitChar(d: nat): (c: char)
    requires d < 10
    ensures IsDigit(c) && DigitValue(c) == d
  {
    ('0' as int + d) as char
  }

  /** The value of a decimal numeral (empty numeral: 0). */
  function DigitsValue(s: string): nat
    requires AllDigits(s)
    decreases |s|
  {
    if s == [] then 0 else DigitsValue(s[..|s| - 1]) * 10 + DigitValue(s[|s| - 1])
  }

  /**
   * strconv.Atoi: an optional sign followed by at least one decimal digit.
   * Anything else is a syntax error (None).
   */
  function Atoi(s: string): (r: Option<int>)
    ensures r.Some? <==>
              || (|s| > 0 && AllDigits(s))
              || (|s| > 1 && (s[0] == '+' || s[0] == '-') && AllDigits(s[1..]))
    ensures r.Some? && s[0] == '-' ==> r.value <= 0
    ensures r.Some? && s[0] != '-' ==> r.value >= 0
  {
    if |s| > 0 && (s[0] == '+' || s[0] == '-') then
      if |s| > 1 && AllDigits(s[1..]) then
        var v: int := DigitsValue(s[1..]);
        Some(if s[0] == '-' then -v else v)
      else None
    else if |s| > 0 && AllDigits(s) then Some(DigitsValue(s))
    else None
  }

  /** The decimal numeral of `n`, without leading zeros. */
  function FormatNat(n: nat): (s: string)
    ensures |s| >= 1 && AllDigits(s) && DigitsValue(s) == n
    ensures s[0] == '0' ==> s == "0"
    decreases n
  {
    if n < 10 then [DigitChar(n)]
    else
      var s := FormatNat(n / 10) + [DigitChar(n % 10)];
      assert s[..|s| - 1] == FormatNat(n / 10);
      s
  }

  /** fmt.Sprintf("%d", n). */
  function FormatInt(n: int): (s: string)
    ensures |s| >= 1
  {
    if n < 0 then "-" + FormatNat(-n) else FormatNat(n)
  }

  /** Printing a number with %d and reading it back with Atoi gives the number. */
  lemma AtoiFormatInt(n: int)
    ensures Atoi(FormatInt(n)) == Some(n)
  {
    if n < 0 {
      var s := FormatInt(n);
      assert s[1..] == FormatNat(-n);
    }
  }

  /** A sign before a non-empty run of digits: "+d" reads as the value of d, "-d" as its negation. */
  lemma AtoiSigned(d: string)
    requires |d| > 0 && AllDigits(d)
    ensures Atoi("+" + d) == Some(DigitsValue(d))
    ensures Atoi("-" + d) == Some(-(DigitsValue(d) as int))
  {
    assert ("+" + d)[1..] == d;
    assert ("-" + d)[1..] == d;
  }

  /** A non-empty run of digits always converts (Atoi's error path needs a non-digit). */
  lemma AtoiDigits(s: string)
    requires |s| > 0 && AllDigits(s)
    ensures Atoi(s) == Some(DigitsValue(s))
  {
  }
}
