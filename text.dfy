/**
 * String helpers with the semantics of the Java library calls the commands
 * use: `String.split` on a one-character delimiter, `String.join`, and
 * decimal rendering of counts.
 */
module Text {

  /** Index of the first occurrence of `d` in `s`, which must occur. */
  function IndexOf(s: string, d: char): (i: nat)
    requires d in s
    ensures i < |s| && s[i] == d
    ensures forall j :: 0 <= j < i ==> s[j] != d
  {
    if s[0] == d then 0 else 1 + IndexOf(s[1..], d)
  }

  /**
   * Every field of `s` between occurrences of `d`, empty fields included:
   * one more field than there are delimiters.
   */
  function Fields(s: string, d: char): (r: seq<string>)
    ensures |r| >= 1
    decreases |s|
  {
    if d !in s then [s]
    else
      var i := IndexOf(s, d);
      [s[..i]] + Fields(s[i + 1..], d)
  }

  /** Drops the empty strings at the end of `r`. */
  function StripTrailingEmpty(r: seq<string>): (t: seq<string>)
    ensures |t| <= |r| && t == r[..|t|]
    ensures |t| > 0 ==> t[|t| - 1] != ""
    ensures forall k :: |t| <= k < |r| ==> r[k] == ""
  {
    if |r| > 0 && r[|r| - 1] == "" then StripTrailingEmpty(r[..|r| - 1]) else r
  }

  /**
   * Java's `s.split(d)` for a delimiter that is one literal character: the
   * fields with trailing empty fields removed; a string with no delimiter at
   * all splits into itself (so "" splits into [""]).
   */
  function Split(s: string, d: char): seq<string>
  {
    if d !in s then [s] else StripTrailingEmpty(Fields(s, d))
  }

  /** Java's `String.join(sep, parts)`. */
  function Join(parts: seq<string>, sep: string): string
  {
    if |parts| == 0 then ""
    else if |parts| == 1 then parts[0]
    else parts[0] + sep + Join(parts[1..], sep)
  }

  /** No field contains the delimiter. */
  lemma {:induction false} FieldsHaveNoDelimiter(s: string, d: char)
    ensures forall k :: 0 <= k < |Fields(s, d)| ==> d !in Fields(s, d)[k]
    decreases |s|
  {
    if d in s {
      var i := IndexOf(s, d);
      FieldsHaveNoDelimiter(s[i + 1..], d);
      assert Fields(s, d) == [s[..i]] + Fields(s[i + 1..], d);
      assert d !in s[..i] by {
        forall j | 0 <= j < i ensures s[..i][j] != d { }
      }
    }
  }

  /** The first delimiter of `a + [d] + b` is the one after `a` when `a` has none. */
  lemma {:induction false} IndexOfAfter(a: string, d: char, b: string)
    requires d !in a
    ensures d in a + [d] + b && IndexOf(a + [d] + b, d) == |a|
  {
    var s := a + [d] + b;
    assert s[|a|] == d;
    if |a| > 0 {
      assert s[1..] == a[1..] + [d] + b;
      assert a[0] in a;
      IndexOfAfter(a[1..], d, b);
    }
  }

  /** The fields of `a + [d] + rest` are `a` followed by the fields of `rest`, when `a` has no delimiter. */
  lemma FieldsCons(a: string, d: char, rest: string)
    requires d !in a
    ensures Fields(a + [d] + rest, d) == [a] + Fields(rest, d)
  {
    var s := a + [d] + rest;
    IndexOfAfter(a, d, rest);
    assert s[..|a|] == a;
    assert s[|a| + 1..] == rest;
  }

  /** Joining delimiter-free parts and splitting the result into fields gives the parts back. */
  lemma {:induction false} FieldsOfJoin(parts: seq<string>, d: char)
    requires |parts| >= 1
    requires forall k :: 0 <= k < |parts| ==> d !in parts[k]
    ensures Fields(Join(parts, [d]), d) == parts
    decreases |parts|
  {
    if |parts| > 1 {
      var rest := Join(parts[1..], [d]);
      assert Join(parts, [d]) == parts[0] + [d] + rest;
      FieldsCons(parts[0], d, rest);
      FieldsOfJoin(parts[1..], d);
      assert parts == [parts[0]] + parts[1..];
    } else {
      assert Join(parts, [d]) == parts[0];
    }
  }

  /** Joining two non-empty lists is joining each and putting the separator between. */
  lemma {:induction false} JoinConcat(a: seq<string>, b: seq<string>, sep: string)
    requires |a| >= 1 && |b| >= 1
    ensures Join(a + b, sep) == Join(a, sep) + sep + Join(b, sep)
    decreases |a|
  {
    if |a| > 1 {
      assert (a + b)[1..] == a[1..] + b;
      JoinConcat(a[1..], b, sep);
    } else {
      assert (a + b)[0] == a[0];
      assert (a + b)[1..] == b;
    }
  }

  /** A string with exactly one delimiter, and text after it, splits into the two sides. */
  lemma SplitPair(a: string, d: char, b: string)
    requires d !in a && d !in b && |b| > 0
    ensures Split(a + [d] + b, d) == [a, b]
  {
    FieldsCons(a, d, b);
  }

  /** The first element of a non-empty Java split is the text before the first delimiter. */
  lemma SplitHead(s: string, d: char)
    requires |Split(s, d)| > 0
    ensures Split(s, d)[0] == Fields(s, d)[0]
    ensures Split(s, d)[0] == if d in s then s[..IndexOf(s, d)] else s
  {
    if d in s {
      var f := Fields(s, d);
      var t := StripTrailingEmpty(f);
      assert t == f[..|t|];
      assert t[0] == f[0];
    }
  }

  /** A Java split is empty exactly when the string is non-empty and made only of delimiters. */
  lemma SplitEmpty(s: string, d: char)
    ensures |Split(s, d)| == 0 <==> (|s| > 0 && forall k :: 0 <= k < |s| ==> s[k] == d)
  {
    FieldsAllEmpty(s, d);
    if d in s {
      StripAllEmpty(Fields(s, d));
      assert Split(s, d) == StripTrailingEmpty(Fields(s, d));
    } else if |s| > 0 {
      assert s[0] in s;
    }
  }

  /** Every field is empty exactly when every character is the delimiter. */
  lemma {:induction false} FieldsAllEmpty(s: string, d: char)
    ensures (forall k :: 0 <= k < |Fields(s, d)| ==> Fields(s, d)[k] == "")
        <==> (forall j :: 0 <= j < |s| ==> s[j] == d)
    decreases |s|
  {
    if d in s {
      var i := IndexOf(s, d);
      var tail := s[i + 1..];
      var f := Fields(s, d);
      assert f == [s[..i]] + Fields(tail, d);
      FieldsAllEmpty(tail, d);
      assert forall k :: 0 <= k < |Fields(tail, d)| ==> Fields(tail, d)[k] == f[k + 1];
      if forall j :: 0 <= j < |s| ==> s[j] == d {
        assert i == 0;
        assert forall j :: 0 <= j < |tail| ==> tail[j] == s[j + 1];
      }
      if forall k :: 0 <= k < |f| ==> f[k] == "" {
        assert f[0] == s[..i];
        assert i == 0;
        forall j | 0 <= j < |s| ensures s[j] == d {
          if j > 0 {
            assert s[j] == tail[j - 1];
          }
        }
      }
    } else if |s| > 0 {
      assert Fields(s, d) == [s];
      assert s[0] in s && s[0] != d;
      assert Fields(s, d)[0] != "";
    }
  }

  /** Stripping removes everything exactly when every element is empty. */
  lemma {:induction false} StripAllEmpty(r: seq<string>)
    ensures |StripTrailingEmpty(r)| == 0 <==> forall k :: 0 <= k < |r| ==> r[k] == ""
  {
    if |r| > 0 && r[|r| - 1] == "" {
      var init := r[..|r| - 1];
      StripAllEmpty(init);
      assert forall k :: 0 <= k < |init| ==> init[k] == r[k];
    }
  }

  /** The decimal digit character of `n < 10`. */
  function Digit(n: nat): char
    requires n < 10
  {
    ('0' as int + n) as char
  }

  /** Java's decimal rendering of an int (no leading zeros, '-' for negatives). */
  function IntToString(n: int): (r: string)
    ensures |r| >= 1
    decreases if n < 0 then 1 - n else n
  {
    if n < 0 then "-" + IntToString(-n)
    else if n < 10 then [Digit(n)]
    else IntToString(n / 10) + [Digit(n % 10)]
  }

  /** Reads a string of decimal digits back into the number it denotes. */
  function ParseDigits(s: string): int
  {
    if |s| == 0 then 0
    else 10 * ParseDigits(s[..|s| - 1]) + DigitValue(s[|s| - 1])
  }

  function DigitValue(c: char): int
  {
    if '0' <= c <= '9' then c as int - '0' as int else 0
  }

  /** Rendering a count and reading it back gives the count: the rendering loses nothing. */
  lemma {:induction false} CountRoundTrip(n: nat)
    ensures ParseDigits(IntToString(n)) == n
    ensures forall k :: 0 <= k < |IntToString(n)| ==> '0' <= IntToString(n)[k] <= '9'
  {
    if n >= 10 {
      CountRoundTrip(n / 10);
      var r := IntToString(n / 10) + [Digit(n % 10)];
      assert r[..|r| - 1] == IntToString(n / 10);
      assert DigitValue(r[|r| - 1]) == n % 10;
      assert 10 * (n / 10) + n % 10 == n;
    }
  }
}
