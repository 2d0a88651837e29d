/** The handful of Python string operations the label file relies on:
    str.join, str.split with a separator, str.strip() == "", str(int) and
    the newline translation of a file opened in text mode. */
module PyText {

  /** Python's str.isspace(), i.e. the characters str.strip() removes. */
  predicate IsSpace(c: char) {
    ('\U{9}' <= c <= '\U{D}') || ('\U{1C}' <= c <= '\U{20}') || c == '\U{85}' || c == '\U{A0}'
    || c == '\U{1680}' || ('\U{2000}' <= c <= '\U{200A}') || c == '\U{2028}' || c == '\U{2029}'
    || c == '\U{202F}' || c == '\U{205F}' || c == '\U{3000}'
  }

  /** `s.strip() == ""`: the line is empty or whitespace only. */
  predicate IsBlank(s: string) {
    forall i :: 0 <= i < |s| ==> IsSpace(s[i])
  }

  /** `sep.join(fs)`. */
  function Join(fs: seq<string>, sep: string): string {
    if fs == [] then []
    else if |fs| == 1 then fs[0]
    else fs[0] + sep + Join(fs[1..], sep)
  }

  /** Joining a first piece onto at least one more puts one separator after it. */
  lemma JoinCons(x: string, rest: seq<string>, sep: string)
    requires rest != []
    ensures Join([x] + rest, sep) == (x + sep) + Join(rest, sep)
  {
    assert ([x] + rest)[1..] == rest;
  }

  /** `s.split(sep)` for a non-empty separator. */
  function Split(s: string, sep: string): (r: seq<string>)
    requires sep != []
    ensures |r| >= 1
  {
    SplitFrom(s, sep, [])
  }

  /** Python's scan: `cur` is the piece gathered so far; at every position an
      occurrence of `sep` closes the piece and is skipped, left to right. */
  function SplitFrom(s: string, sep: string, cur: string): (r: seq<string>)
    requires sep != []
    ensures |r| >= 1
    decreases |s|
  {
    if sep <= s then [cur] + SplitFrom(s[|sep|..], sep, [])
    else if s == [] then [cur]
    else SplitFrom(s[1..], sep, cur + [s[0]])
  }

  /** No occurrence of `sep` starts inside `f`, even one that would run on into
      a following `sep`: then `f` survives being joined with `sep` and split again. */
  predicate Separable(f: string, sep: string) {
    forall i :: 0 <= i < |f| ==> !(sep <= (f + sep)[i..])
  }

  /** Splitting always undoes joining: the pieces, joined back, are the text. */
  lemma {:induction false} JoinSplit(s: string, sep: string)
    requires sep != []
    ensures Join(Split(s, sep), sep) == s
  {
    JoinSplitFrom(s, sep, []);
  }

  lemma {:induction false} JoinSplitFrom(s: string, sep: string, cur: string)
    requires sep != []
    ensures Join(SplitFrom(s, sep, cur), sep) == cur + s
    decreases |s|
  {
    if sep <= s {
      var rest := s[|sep|..];
      var pieces := SplitFrom(rest, sep, []);
      JoinSplitFrom(rest, sep, []);
      assert ([cur] + pieces)[1..] == pieces;
      assert Join([cur] + pieces, sep) == cur + sep + Join(pieces, sep);
      assert s == sep + rest;
    } else if s == [] {
    } else {
      JoinSplitFrom(s[1..], sep, cur + [s[0]]);
      assert cur + [s[0]] + s[1..] == cur + s;
    }
  }

  lemma PrefixOfLonger(sep: string, x: string, y: string)
    requires |x| >= |sep|
    ensures (sep <= x + y) == (sep <= x)
  {
    if sep <= x + y {
      assert sep == (x + y)[..|sep|] == x[..|sep|];
    }
  }

  lemma {:induction false} SplitFromCut(a: string, sep: string, b: string, cur: string)
    requires sep != [] && Separable(a, sep)
    ensures SplitFrom(a + sep + b, sep, cur) == [cur + a] + SplitFrom(b, sep, [])
    decreases |a|
  {
    var s := a + sep + b;
    if a == [] {
      assert s == sep + b;
      assert s[|sep|..] == b;
      assert cur + a == cur;
    } else {
      PrefixOfLonger(sep, a + sep, b);
      assert (a + sep)[0..] == a + sep;
      assert !(sep <= s);
      assert s[1..] == a[1..] + sep + b;
      forall i | 0 <= i < |a[1..]|
        ensures !(sep <= (a[1..] + sep)[i..])
      {
        assert (a[1..] + sep)[i..] == (a + sep)[i + 1..];
      }
      SplitFromCut(a[1..], sep, b, cur + [a[0]]);
      assert cur + [a[0]] + a[1..] == cur + a;
    }
  }

  lemma {:induction false} SplitFromWhole(a: string, sep: string, cur: string)
    requires sep != [] && Separable(a, sep)
    ensures SplitFrom(a, sep, cur) == [cur + a]
    decreases |a|
  {
    if a == [] {
      assert cur + a == cur;
    } else {
      assert (a + sep)[0..] == a + sep;
      if |a| >= |sep| {
        PrefixOfLonger(sep, a, sep);
      }
      assert !(sep <= a);
      forall i | 0 <= i < |a[1..]|
        ensures !(sep <= (a[1..] + sep)[i..])
      {
        assert (a[1..] + sep)[i..] == (a + sep)[i + 1..];
      }
      SplitFromWhole(a[1..], sep, cur + [a[0]]);
      assert cur + [a[0]] + a[1..] == cur + a;
    }
  }

  /** Joining is undone by splitting when there is at least one piece and no
      piece can be mistaken for (part of) a separator. */
  lemma {:induction false} SplitJoin(fs: seq<string>, sep: string)
    requires sep != [] && fs != []
    requires forall k :: 0 <= k < |fs| ==> Separable(fs[k], sep)
    ensures Split(Join(fs, sep), sep) == fs
    decreases |fs|
  {
    if |fs| == 1 {
      SplitFromWhole(fs[0], sep, []);
      assert [] + fs[0] == fs[0];
      assert fs == [fs[0]];
    } else {
      SplitFromCut(fs[0], sep, Join(fs[1..], sep), []);
      assert fs[0] + sep + Join(fs[1..], sep) == Join(fs, sep);
      assert [] + fs[0] == fs[0];
      SplitJoin(fs[1..], sep);
      assert fs == [fs[0]] + fs[1..];
    }
  }

  /** For a one-character separator, separable means "does not contain it". */
  lemma SeparableByChar(f: string, c: char)
    requires c !in f
    ensures Separable(f, [c])
  {
    forall i | 0 <= i < |f|
      ensures !([c] <= (f + [c])[i..])
    {
      assert (f + [c])[i..][0] == f[i];
    }
  }

  /** Every '|' in `f` is followed, inside `f`, by a character other than '|'. */
  predicate NoBarRun(f: string) {
    forall i :: 0 <= i < |f| && f[i] == '|' ==> i + 1 < |f| && f[i + 1] != '|'
  }

  lemma SeparableByBars(f: string)
    requires NoBarRun(f)
    ensures Separable(f, "||")
  {
    forall i | 0 <= i < |f|
      ensures !("||" <= (f + "||")[i..])
    {
      var t := (f + "||")[i..];
      assert t[0] == f[i];
      if f[i] == '|' {
        assert t[1] == f[i + 1];
      }
    }
  }

  /** A character in no piece and not in the separator is not in the joined text. */
  lemma {:induction false} NotInJoin(fs: seq<string>, sep: string, c: char)
    requires c !in sep
    requires forall k :: 0 <= k < |fs| ==> c !in fs[k]
    ensures c !in Join(fs, sep)
    decreases |fs|
  {
    if |fs| > 1 {
      NotInJoin(fs[1..], sep, c);
    }
  }

  function DigitChar(d: nat): (c: char)
    requires d < 10
    ensures '0' <= c <= '9'
  {
    "0123456789"[d]
  }

  /** The decimal digits of a natural number, most significant first. */
  function Digits(n: nat): string {
    if n < 10 then [DigitChar(n)] else Digits(n / 10) + [DigitChar(n % 10)]
  }

  /** Python's str() of an int. */
  function IntToStr(n: int): string {
    if n < 0 then "-" + Digits(-n) else Digits(n)
  }

  lemma {:induction false} DigitsAreDigits(n: nat)
    ensures |Digits(n)| >= 1
    ensures forall i :: 0 <= i < |Digits(n)| ==> '0' <= Digits(n)[i] <= '9'
    decreases n
  {
    if n >= 10 {
      DigitsAreDigits(n / 10);
    }
  }

  /** str(n) is a non-empty run of decimal digits, after a '-' when n < 0. */
  lemma IntToStrChars(n: int)
    ensures |IntToStr(n)| >= 1
    ensures n < 0 ==> IntToStr(n)[0] == '-'
    ensures forall i :: (n < 0 ==> 1 <= i) && 0 <= i < |IntToStr(n)| ==> '0' <= IntToStr(n)[i] <= '9'
  {
    if n < 0 {
      DigitsAreDigits(-n);
      assert IntToStr(n)[1..] == Digits(-n);
    } else {
      DigitsAreDigits(n);
    }
  }

  /** What a file opened with open(path, "r") yields: universal newlines
      turn "\r\n" and a lone "\r" into "\n". */
  function UniversalNewlines(s: string): (r: string)
    ensures '\r' !in r
    ensures |r| <= |s|
    decreases |s|
  {
    if s == [] then []
    else if s[0] == '\r' then
      "\n" + UniversalNewlines(if |s| > 1 && s[1] == '\n' then s[2..] else s[1..])
    else [s[0]] + UniversalNewlines(s[1..])
  }

  /** Text with no carriage return reads back unchanged. */
  lemma {:induction false} UniversalNewlinesKeeps(s: string)
    requires '\r' !in s
    ensures UniversalNewlines(s) == s
    decreases |s|
  {
    if s != [] {
      UniversalNewlinesKeeps(s[1..]);
    }
  }
}
