/**
  The Python string built-ins the framework relies on, written out over
  `seq<char>`: the whitespace class shared by `str.isspace`, `str.strip` and
  the `\s`/`\S` regular-expression classes, `str.strip()`, `str.split(sep)` with
  an explicit one-character separator, `sep.join(xs)`, `str.lower()` on ASCII
  letters, and `int(s)` / `str(n)` for decimal literals.
 */
module PyStr {
  import opened Common

  /** Python's whitespace characters (`str.isspace`, `\s`). */
  predicate IsSpace(c: char) {
    || c == ' '
    || ('\t' <= c <= '\r')
    || ('\U{1C}' <= c <= '\U{1F}')
    || c == '\U{85}' || c == '\U{A0}' || c == '\U{1680}'
    || ('\U{2000}' <= c <= '\U{200A}')
    || c == '\U{2028}' || c == '\U{2029}' || c == '\U{202F}' || c == '\U{205F}' || c == '\U{3000}'
  }

  /** No whitespace character except the plain space. */
  predicate OnlyPlainSpaces(s: string) {
    forall i :: 0 <= i < |s| && IsSpace(s[i]) ==> s[i] == ' '
  }

  predicate NoWhitespace(s: string) {
    forall i :: 0 <= i < |s| ==> !IsSpace(s[i])
  }

  function TrimStart(s: string): (r: string)
    ensures |r| <= |s| && r == s[|s| - |r|..]
    ensures r == [] || !IsSpace(r[0])
  {
    if |s| > 0 && IsSpace(s[0]) then TrimStart(s[1..]) else s
  }

  function TrimEnd(s: string): (r: string)
    ensures |r| <= |s| && r == s[..|r|]
    ensures r == [] || !IsSpace(r[|r| - 1])
    ensures |s| > 0 && !IsSpace(s[0]) ==> |r| > 0
  {
    if |s| > 0 && IsSpace(s[|s| - 1]) then TrimEnd(s[..|s| - 1]) else s
  }

  /** `s.strip()`: removes leading and trailing whitespace. */
  function Strip(s: string): (r: string)
    ensures r == [] || (!IsSpace(r[0]) && !IsSpace(r[|r| - 1]))
  {
    TrimEnd(TrimStart(s))
  }

  /** `s.split(sep)` with an explicit separator: always at least one piece. */
  function Split(s: string, sep: char): (r: seq<string>)
    ensures |r| >= 1
    ensures forall k :: 0 <= k < |r| ==> sep !in r[k]
  {
    if s == [] then [[]]
    else if s[0] == sep then [[]] + Split(s[1..], sep)
    else
      var rest := Split(s[1..], sep);
      [[s[0]] + rest[0]] + rest[1..]
  }

  /** `sep.join(xs)` with a one-character separator. */
  function Join(xs: seq<string>, sep: char): string
  {
    if |xs| == 0 then []
    else if |xs| == 1 then xs[0]
    else xs[0] + [sep] + Join(xs[1..], sep)
  }

  /** `[x for x in xs if x != ""]`. */
  function NonEmpty(xs: seq<string>): (r: seq<string>)
    ensures forall k :: 0 <= k < |r| ==> r[k] != [] && r[k] in xs
  {
    if xs == [] then []
    else if xs[0] == [] then NonEmpty(xs[1..])
    else [xs[0]] + NonEmpty(xs[1..])
  }

  function LowerChar(c: char): char {
    if 'A' <= c <= 'Z' then (c as int - 'A' as int + 'a' as int) as char else c
  }

  /** `s.lower()`, restricted to the ASCII letters. */
  function Lower(s: string): (r: string)
    ensures |r| == |s|
    ensures forall i :: 0 <= i < |s| ==> r[i] == LowerChar(s[i])
  {
    seq(|s|, i requires 0 <= i < |s| => LowerChar(s[i]))
  }

  /** Every character is in the ASCII range, as `hmac.compare_digest` demands of str arguments. */
  predicate IsAscii(s: string) {
    forall i :: 0 <= i < |s| ==> s[i] as int < 128
  }

  predicate IsDigit(c: char) {
    '0' <= c <= '9'
  }

  predicate IsDecimal(s: string) {
    |s| > 0 && forall i :: 0 <= i < |s| ==> IsDigit(s[i])
  }

  function DigitsValue(s: string): nat
    requires forall i :: 0 <= i < |s| ==> IsDigit(s[i])
  {
    if |s| == 0 then 0
    else
      assert IsDigit(s[|s| - 1]);
      DigitsValue(s[..|s| - 1]) * 10 + (s[|s| - 1] as int - '0' as int)
  }

  /**
    `int(s)` restricted to an optional sign followed by ASCII digits, with no
    length limit. Python also accepts surrounding whitespace, `_` between
    digits and non-ASCII decimal digits, and refuses literals of more than 4300
    digits; here all of those differ (None, or a value), see the README.
   */
  function ParseInt(s: string): Option<int>
  {
    if |s| > 0 && (s[0] == '-' || s[0] == '+') then
      if IsDecimal(s[1..]) then
        var m: int := DigitsValue(s[1..]);
        Some(if s[0] == '-' then -m else m)
      else None
    else if IsDecimal(s) then Some(DigitsValue(s))
    else None
  }

  function NatToString(n: nat): (r: string)
    ensures IsDecimal(r)
  {
    var d := [('0' as int + n % 10) as char];
    if n < 10 then d else NatToString(n / 10) + d
  }

  /** `str(v)` for an int. */
  function IntToString(v: int): string {
    if v < 0 then "-" + NatToString(-v) else NatToString(v)
  }

  // ---------------------------------------------------------------------------
  // Lemmas

  lemma {:induction false} NatToStringValue(n: nat)
    ensures DigitsValue(NatToString(n)) == n
  {
    var s := NatToString(n);
    assert s[..|s| - 1] == if n < 10 then [] else NatToString(n / 10);
    if n >= 10 {
      NatToStringValue(n / 10);
    }
  }

  /** `int(str(v)) == v` for every integer. */
  lemma IntRoundTrip(v: int)
    ensures ParseInt(IntToString(v)) == Some(v)
  {
    if v < 0 {
      var s := IntToString(v);
      assert s[1..] == NatToString(-v);
      NatToStringValue(-v);
    } else {
      NatToStringValue(v);
    }
  }

  lemma SplitNoSep(s: string, sep: char)
    requires sep !in s
    ensures Split(s, sep) == [s]
  {
    if s != [] {
      SplitNoSep(s[1..], sep);
      assert [s[0]] + s[1..] == s;
    }
  }

  lemma {:induction false} SplitAround(a: string, b: string, sep: char)
    ensures Split(a + [sep] + b, sep) == Split(a, sep) + Split(b, sep)
  {
    if a == [] {
      assert a + [sep] + b == [sep] + b;
      assert ([sep] + b)[1..] == b;
    } else {
      assert (a + [sep] + b)[0] == a[0];
      assert (a + [sep] + b)[1..] == a[1..] + [sep] + b;
      SplitAround(a[1..], b, sep);
    }
  }

  lemma SplitTrailingSep(a: string, sep: char)
    ensures Split(a + [sep], sep) == Split(a, sep) + [[]]
  {
    SplitAround(a, [], sep);
    assert a + [sep] + [] == a + [sep];
  }

  lemma SplitFirstPiece(s: string, sep: char)
    requires |s| > 0 && s[0] != sep
    ensures Split(s, sep)[0] != []
  {
  }

  lemma {:induction false} JoinSplit(xs: seq<string>, sep: char)
    requires |xs| >= 1
    requires forall k :: 0 <= k < |xs| ==> sep !in xs[k]
    ensures Split(Join(xs, sep), sep) == xs
  {
    if |xs| == 1 {
      SplitNoSep(xs[0], sep);
    } else {
      JoinSplit(xs[1..], sep);
      SplitAround(xs[0], Join(xs[1..], sep), sep);
      SplitNoSep(xs[0], sep);
    }
  }

  lemma {:induction false} NonEmptyAppend(a: seq<string>, b: seq<string>)
    ensures NonEmpty(a + b) == NonEmpty(a) + NonEmpty(b)
  {
    if a == [] {
      assert a + b == b;
    } else {
      assert (a + b)[0] == a[0];
      assert (a + b)[1..] == a[1..] + b;
      NonEmptyAppend(a[1..], b);
    }
  }

  /** Filtering out empty strings keeps a list without empty strings unchanged. */
  lemma {:induction false} NonEmptyOfNonEmpty(ws: seq<string>)
    requires forall k :: 0 <= k < |ws| ==> ws[k] != []
    ensures NonEmpty(ws) == ws
  {
    if |ws| > 0 {
      NonEmptyOfNonEmpty(ws[1..]);
    }
  }

  lemma JoinEmptyFree(xs: seq<string>, sep: char)
    requires forall k :: 0 <= k < |xs| ==> xs[k] != []
    ensures Join(xs, sep) == [] <==> xs == []
  {
  }

  /** Leading and trailing plain spaces do not change the non-empty pieces of a split. */
  lemma {:induction false} StripKeepsWords(s: string)
    requires OnlyPlainSpaces(s)
    ensures NonEmpty(Split(Strip(s), ' ')) == NonEmpty(Split(s, ' '))
  {
    TrimStartKeepsWords(s);
    var t := TrimStart(s);
    assert OnlyPlainSpaces(t) by {
      forall i | 0 <= i < |t| && IsSpace(t[i]) ensures t[i] == ' ' {
        assert t[i] == s[|s| - |t| + i];
      }
    }
    TrimEndKeepsWords(t);
  }

  lemma {:induction false} TrimStartKeepsWords(s: string)
    requires OnlyPlainSpaces(s)
    ensures NonEmpty(Split(TrimStart(s), ' ')) == NonEmpty(Split(s, ' '))
  {
    if |s| > 0 && IsSpace(s[0]) {
      assert s[0] == ' ';
      assert Split(s, ' ') == [[]] + Split(s[1..], ' ');
      TrimStartKeepsWords(s[1..]);
    }
  }

  lemma {:induction false} TrimEndKeepsWords(s: string)
    requires OnlyPlainSpaces(s)
    ensures NonEmpty(Split(TrimEnd(s), ' ')) == NonEmpty(Split(s, ' '))
  {
    if |s| > 0 && IsSpace(s[|s| - 1]) {
      var a := s[..|s| - 1];
      assert s == a + [' '];
      SplitTrailingSep(a, ' ');
      NonEmptyAppend(Split(a, ' '), [[]]);
      TrimEndKeepsWords(a);
    }
  }
}
