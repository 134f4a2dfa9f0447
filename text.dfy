/**
 * String helpers shared by the registry and the talk driver: splitting on a
 * separator character and joining with one (the behaviour of `str.split(sep)`
 * and `sep.join(parts)`), decimal rendering of a natural number (what an
 * f-string does with an `int`), and ASCII title-casing (`str.title()`).
 */
module Text {

  // ---------------------------------------------------------------------------
  // Split and Join
  // ---------------------------------------------------------------------------

  /** `s.split(sep)`: the maximal separator-free pieces of `s`, in order.
      Like Python's, it never returns an empty list: `"".split(".") == [""]`. */
  function Split(s: string, sep: char): (parts: seq<string>)
    ensures |parts| >= 1
    ensures forall i :: 0 <= i < |parts| ==> sep !in parts[i]
  {
    if |s| == 0 then [""]
    else
      var rest := Split(s[1..], sep);
      if s[0] == sep then [""] + rest
      else [[s[0]] + rest[0]] + rest[1..]
  }

  /** `sep.join(parts)`: the pieces with one separator between neighbours
      and none before the first or after the last. */
  function Join(parts: seq<string>, sep: char): string
  {
    if |parts| == 0 then ""
    else if |parts| == 1 then parts[0]
    else parts[0] + [sep] + Join(parts[1..], sep)
  }

  /** Joining the pieces of a split gives back the original string. */
  lemma {:induction false} JoinSplit(s: string, sep: char)
    ensures Join(Split(s, sep), sep) == s
  {
    if |s| > 0 {
      JoinSplit(s[1..], sep);
      var rest := Split(s[1..], sep);
      if s[0] == sep {
        assert Split(s, sep) == [""] + rest;
        assert ([""] + rest)[1..] == rest;
      } else {
        var parts := Split(s, sep);
        assert parts[1..] == rest[1..];
        if |rest| == 1 {
          assert Join(rest, sep) == rest[0];
        } else {
          assert rest == [rest[0]] + rest[1..];
        }
        assert s == [s[0]] + s[1..];
      }
    }
  }

  /** A string without the separator splits into itself alone. */
  lemma {:induction false} SplitNoSep(s: string, sep: char)
    requires sep !in s
    ensures Split(s, sep) == [s]
  {
    if |s| > 0 {
      assert sep !in s[1..] by {
        forall i | 0 <= i < |s[1..]| ensures s[1..][i] != sep {
          assert s[1..][i] == s[i + 1];
        }
      }
      SplitNoSep(s[1..], sep);
      assert s == [s[0]] + s[1..];
    }
  }

  /** A separator in the middle of a string cuts its split in two. */
  lemma {:induction false} SplitAround(x: string, y: string, sep: char)
    ensures Split(x + [sep] + y, sep) == Split(x, sep) + Split(y, sep)
  {
    if |x| == 0 {
      assert x + [sep] + y == [sep] + y;
      assert ([sep] + y)[1..] == y;
    } else {
      var s := x + [sep] + y;
      assert s[1..] == x[1..] + [sep] + y;
      SplitAround(x[1..], y, sep);
    }
  }

  /** Splitting a join of separator-free pieces gives back the pieces: the
      round trip that lets a reader recover lines from a rendered text. */
  lemma {:induction false} SplitJoin(parts: seq<string>, sep: char)
    requires |parts| >= 1
    requires forall i :: 0 <= i < |parts| ==> sep !in parts[i]
    ensures Split(Join(parts, sep), sep) == parts
  {
    if |parts| == 1 {
      SplitNoSep(parts[0], sep);
    } else {
      SplitJoin(parts[1..], sep);
      SplitNoSep(parts[0], sep);
      SplitAround(parts[0], Join(parts[1..], sep), sep);
      assert parts == [parts[0]] + parts[1..];
    }
  }

  /** Seven pieces each followed by a separator, grouped from the right. */
  lemma JoinRegroup(a: string, b: string, c: string, d: string, e: string, f: string, g: string, nl: string)
    ensures a + nl + b + nl + c + nl + d + nl + e + nl + f + nl + g + nl
         == a + nl + (b + nl + (c + nl + (d + nl + (e + nl + (f + nl + (g + nl))))))
  {
  }

  /** A separator-free piece followed by a separator starts the split. */
  lemma SplitAfterPiece(x: string, rest: string, sep: char)
    requires sep !in x
    ensures Split(x + [sep] + rest, sep) == [x] + Split(rest, sep)
  {
    SplitAround(x, rest, sep);
    SplitNoSep(x, sep);
  }

  /** The split of a text made of a separator-free piece `t`, any text `s`,
      two separator-free pieces `u` and `v`, any text `c` and a text `b`
      whose split is known, each but the last followed by a separator. */
  lemma SplitFramed(t: string, s: string, u: string, v: string, c: string, b: string,
                    tail: seq<string>, sep: char)
    requires sep !in t && sep !in u && sep !in v
    requires Split(b, sep) == tail
    ensures Split(t + [sep] + (s + [sep] + (u + [sep] + (v + [sep] + (c + [sep] + b)))), sep)
         == [t] + Split(s, sep) + [u, v] + Split(c, sep) + tail
  {
    var r2 := u + [sep] + (v + [sep] + (c + [sep] + b));
    SplitFramedTail(u, v, c, b, tail, sep);
    SplitAround(s, r2, sep);
    SplitAfterPiece(t, s + [sep] + r2, sep);
  }

  lemma SplitFramedTail(u: string, v: string, c: string, b: string, tail: seq<string>, sep: char)
    requires sep !in u && sep !in v
    requires Split(b, sep) == tail
    ensures Split(u + [sep] + (v + [sep] + (c + [sep] + b)), sep) == [u, v] + Split(c, sep) + tail
  {
    var r4 := c + [sep] + b;
    SplitAround(c, b, sep);
    SplitAfterPiece(v, r4, sep);
    SplitAfterPiece(u, v + [sep] + r4, sep);
  }

  /** A join of two or more pieces ends with a separator and the last
      piece. */
  lemma {:induction false} JoinSnoc(parts: seq<string>, sep: char)
    requires |parts| > 1
    ensures Join(parts, sep) == Join(parts[..|parts| - 1], sep) + [sep] + parts[|parts| - 1]
  {
    if |parts| > 2 {
      JoinSnoc(parts[1..], sep);
      assert parts[1..][..|parts| - 2] == parts[..|parts| - 1][1..];
    }
  }

  /** The last piece of a split is a suffix of `s`, preceded in `s` by a
      separator unless it is all of `s`. */
  lemma SplitLastSuffix(s: string, sep: char)
    ensures var last := Split(s, sep)[|Split(s, sep)| - 1];
      && |last| <= |s|
      && last == s[|s| - |last|..]
      && (|last| == |s| || s[|s| - |last| - 1] == sep)
  {
    var parts := Split(s, sep);
    JoinSplit(s, sep);
    if |parts| > 1 {
      JoinSnoc(parts, sep);
    }
  }

  /** The last piece of a split is the suffix of `s` after the last
      separator, or all of `s` when it holds no separator. */
  lemma {:induction false} SplitLast(s: string, sep: char)
    ensures var last := Split(s, sep)[|Split(s, sep)| - 1];
      && |last| <= |s|
      && last == s[|s| - |last|..]
      && (|last| == |s| || s[|s| - |last| - 1] == sep)
      && (|last| == |s| <==> sep !in s)
  {
    SplitLastSuffix(s, sep);
    var last := Split(s, sep)[|Split(s, sep)| - 1];
    if |last| == |s| {
      assert last == s;
    }
  }

  // ---------------------------------------------------------------------------
  // Decimal rendering of naturals
  // ---------------------------------------------------------------------------

  predicate IsDigit(c: char) { '0' <= c <= '9' }

  function DigitChar(d: nat): (c: char)
    requires d < 10
    ensures IsDigit(c)
  {
    (('0' as int) + d) as char
  }

  /** The decimal text of `n`, as an f-string renders an `int`: at least
      one digit, and no leading zero unless `n` is zero. */
  function NatToString(n: nat): (s: string)
    ensures |s| >= 1
    ensures forall i :: 0 <= i < |s| ==> IsDigit(s[i])
    ensures s[0] == '0' ==> n == 0
  {
    if n < 10 then [DigitChar(n)] else NatToString(n / 10) + [DigitChar(n % 10)]
  }

  /** The value of a string of decimal digits. */
  function ParseNat(s: string): nat
    requires forall i :: 0 <= i < |s| ==> IsDigit(s[i])
  {
    if |s| == 0 then 0
    else
      assert IsDigit(s[|s| - 1]);
      ParseNat(s[..|s| - 1]) * 10 + (s[|s| - 1] as int - '0' as int)
  }

  /** Reading back the rendered decimal text gives the number. */
  lemma {:induction false} ParseNatToString(n: nat)
    ensures ParseNat(NatToString(n)) == n
  {
    var s := NatToString(n);
    if n >= 10 {
      ParseNatToString(n / 10);
      assert s[..|s| - 1] == NatToString(n / 10);
    }
  }

  // ---------------------------------------------------------------------------
  // Title case (ASCII letters only)
  // ---------------------------------------------------------------------------

  predicate IsUpper(c: char) { 'A' <= c <= 'Z' }
  predicate IsLower(c: char) { 'a' <= c <= 'z' }
  predicate IsLetter(c: char) { IsUpper(c) || IsLower(c) }

  function ToUpper(c: char): char
  {
    if IsLower(c) then (c as int - 32) as char else c
  }

  function ToLower(c: char): char
  {
    if IsUpper(c) then (c as int + 32) as char else c
  }

  /** Title-casing with `afterCased` telling whether the character before
      `s` was a cased one: a character right after a letter is lowered,
      any other is raised. */
  function TitleFrom(s: string, afterCased: bool): (r: string)
    ensures |r| == |s|
  {
    if |s| == 0 then ""
    else
      var c := if afterCased then ToLower(s[0]) else ToUpper(s[0]);
      [c] + TitleFrom(s[1..], IsLetter(s[0]))
  }

  /** `s.title()`, restricted to ASCII: every word starts upper case and
      the rest of the word is lower case; a word is a run of letters. */
  function Title(s: string): (r: string)
    ensures |r| == |s|
  {
    TitleFrom(s, false)
  }

  lemma {:induction false} TitleFromAt(s: string, afterCased: bool, i: nat)
    requires i < |s|
    ensures TitleFrom(s, afterCased)[i] ==
      if (i == 0 && afterCased) || (i > 0 && IsLetter(s[i - 1])) then ToLower(s[i]) else ToUpper(s[i])
  {
    if i > 0 {
      TitleFromAt(s[1..], IsLetter(s[0]), i - 1);
      assert s[1..][i - 1] == s[i];
      if i > 1 {
        assert s[1..][i - 2] == s[i - 1];
      }
    }
  }

  /** Character by character: the first character and any character that
      does not follow a letter is upper-cased, every other is lower-cased. */
  lemma TitleAt(s: string, i: nat)
    requires i < |s|
    ensures Title(s)[i] ==
      if i > 0 && IsLetter(s[i - 1]) then ToLower(s[i]) else ToUpper(s[i])
  {
    TitleFromAt(s, false, i);
  }
}
