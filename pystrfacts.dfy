/** Properties of the string built-ins: what strip, split and int() do, and the str()/int() round trip. */
module PyStrFacts {
  import opened Wrappers
  import opened PyStr

  /** `StripLeft` removes a prefix of white space and leaves text that does not start with white space. */
  lemma {:induction false} StripLeftSpec(s: string)
    ensures |StripLeft(s)| <= |s| && StripLeft(s) == s[|s| - |StripLeft(s)|..]
    ensures forall i :: 0 <= i < |s| - |StripLeft(s)| ==> IsSpace(s[i])
    ensures StripLeft(s) != [] ==> !IsSpace(StripLeft(s)[0])
  {
    if |s| > 0 && IsSpace(s[0]) {
      StripLeftSpec(s[1..]);
    }
  }

  /** `StripRight` removes a suffix of white space and leaves text that does not end with white space. */
  lemma {:induction false} StripRightSpec(s: string)
    ensures |StripRight(s)| <= |s| && StripRight(s) == s[..|StripRight(s)|]
    ensures forall i :: |StripRight(s)| <= i < |s| ==> IsSpace(s[i])
    ensures StripRight(s) != [] ==> !IsSpace(StripRight(s)[|StripRight(s)| - 1])
  {
    if |s| > 0 && IsSpace(s[|s| - 1]) {
      StripRightSpec(s[..|s| - 1]);
    }
  }

  /** Leading white space is what `StripLeft` removes, and nothing else. */
  lemma {:induction false} StripLeftSpaces(ws: string, t: string)
    requires forall i :: 0 <= i < |ws| ==> IsSpace(ws[i])
    requires t != [] ==> !IsSpace(t[0])
    ensures StripLeft(ws + t) == t
  {
    if ws != [] {
      assert (ws + t)[1..] == ws[1..] + t;
      StripLeftSpaces(ws[1..], t);
    }
  }

  /** `s.strip()` of white space followed by text with no white space at its ends is that text. */
  lemma StripPadded(ws: string, t: string)
    requires forall i :: 0 <= i < |ws| ==> IsSpace(ws[i])
    requires t != [] ==> !IsSpace(t[0]) && !IsSpace(t[|t| - 1])
    ensures Strip(ws + t) == t
  {
    StripLeftSpaces(ws, t);
  }

  /** `Find` gives the first occurrence, and None exactly when there is none. */
  lemma {:induction false} FindSpec(s: string, c: char)
    ensures Find(s, c).None? <==> c !in s
    ensures Find(s, c).Some? ==> s[Find(s, c).value] == c && c !in s[..Find(s, c).value]
  {
    if |s| > 0 && s[0] != c {
      FindSpec(s[1..], c);
      assert s == [s[0]] + s[1..];
      if Find(s[1..], c).Some? {
        var i := Find(s[1..], c).value;
        assert s[..i + 1] == [s[0]] + s[1..][..i];
      }
    }
  }

  /** A split with splits left gives one part exactly when the separator is absent. */
  lemma SplitMaxOne(s: string, sep: char, maxsplit: nat)
    requires maxsplit > 0
    ensures |SplitMax(s, sep, maxsplit)| == 1 <==> sep !in s
  {
    FindSpec(s, sep);
  }

  /** The first occurrence of a character after a prefix that lacks it. */
  lemma {:induction false} FindAfter(a: string, c: char, b: string)
    requires c !in a
    ensures Find(a + [c] + b, c) == Some(|a|)
  {
    if a != [] {
      assert (a + [c] + b)[1..] == a[1..] + [c] + b;
      FindAfter(a[1..], c, b);
    }
  }

  lemma JoinCons(x: string, rest: seq<string>, sep: char)
    requires |rest| >= 1
    ensures Join([x] + rest, sep) == x + [sep] + Join(rest, sep)
  {
    assert ([x] + rest)[1..] == rest;
  }

  /** Splitting undoes joining: the parts rejoin to the input. */
  lemma {:induction false} SplitMaxJoin(s: string, sep: char, maxsplit: nat)
    ensures Join(SplitMax(s, sep, maxsplit), sep) == s
    decreases maxsplit
  {
    var f := Find(s, sep);
    if maxsplit > 0 && f.Some? {
      var i := f.value;
      SplitMaxJoin(s[i + 1..], sep, maxsplit - 1);
      SplitMaxJoinStep(s, sep, maxsplit, i);
    } else {
      SplitMaxWhole(s, sep, maxsplit);
    }
  }

  lemma SplitMaxWhole(s: string, sep: char, maxsplit: nat)
    requires maxsplit == 0 || Find(s, sep).None?
    ensures SplitMax(s, sep, maxsplit) == [s] && Join([s], sep) == s
  {
  }

  lemma SplitMaxJoinStep(s: string, sep: char, maxsplit: nat, i: nat)
    requires maxsplit > 0 && Find(s, sep) == Some(i) && i < |s|
    requires Join(SplitMax(s[i + 1..], sep, maxsplit - 1), sep) == s[i + 1..]
    ensures Join(SplitMax(s, sep, maxsplit), sep) == s
  {
    var rest := SplitMax(s[i + 1..], sep, maxsplit - 1);
    assert SplitMax(s, sep, maxsplit) == [s[..i]] + rest;
    FindSpec(s, sep);
    JoinAround(s, i, sep, rest);
  }

  /** Joining the text before a separator onto parts that rejoin to the text after it gives the whole. */
  lemma JoinAround(s: string, i: nat, sep: char, rest: seq<string>)
    requires i < |s| && s[i] == sep && |rest| >= 1 && Join(rest, sep) == s[i + 1..]
    ensures Join([s[..i]] + rest, sep) == s
  {
    JoinCons(s[..i], rest, sep);
    assert s == s[..i] + [sep] + s[i + 1..];
  }

  /** Every part of a split but the last lacks the separator. */
  lemma {:induction false} SplitMaxParts(s: string, sep: char, maxsplit: nat)
    ensures forall k :: 0 <= k < |SplitMax(s, sep, maxsplit)| - 1 ==> sep !in SplitMax(s, sep, maxsplit)[k]
    decreases maxsplit
  {
    if maxsplit > 0 {
      var f := Find(s, sep);
      if f.Some? {
        var i := f.value;
        var rest := SplitMax(s[i + 1..], sep, maxsplit - 1);
        SplitMaxParts(s[i + 1..], sep, maxsplit - 1);
        var parts := [s[..i]] + rest;
        assert SplitMax(s, sep, maxsplit) == parts;
        FindSpec(s, sep);
        forall k | 0 < k < |parts| - 1
          ensures sep !in parts[k]
        {
          assert parts[k] == rest[k - 1];
        }
      }
    }
  }

  lemma CountAfter(a: string, c: char, b: string)
    requires c !in a
    ensures multiset(a + [c] + b)[c] == multiset(b)[c] + 1
  {
    assert multiset(a + [c] + b) == multiset(a) + multiset{c} + multiset(b);
    assert multiset(a)[c] == 0;
  }

  /** `s.split(sep, n)` gives n + 1 parts exactly when `s` holds at least n separators. */
  lemma {:induction false} SplitMaxCount(s: string, sep: char, maxsplit: nat)
    ensures |SplitMax(s, sep, maxsplit)| == 1 + Min(multiset(s)[sep], maxsplit)
    decreases maxsplit
  {
    if maxsplit == 0 {
      SplitMaxWhole(s, sep, maxsplit);
    } else if Find(s, sep).None? {
      SplitMaxWhole(s, sep, maxsplit);
      CountAbsent(s, sep);
    } else {
      var i := Find(s, sep).value;
      SplitMaxCount(s[i + 1..], sep, maxsplit - 1);
      CountAtFind(s, sep, i);
      SplitMaxStep(s, sep, maxsplit, i);
      MinStep(multiset(s[i + 1..])[sep], maxsplit);
    }
  }

  lemma MinStep(a: nat, m: nat)
    requires m > 0
    ensures Min(a + 1, m) == 1 + Min(a, m - 1)
  {
  }

  /** A character that `Find` misses is not counted. */
  lemma CountAbsent(s: string, c: char)
    requires Find(s, c).None?
    ensures multiset(s)[c] == 0
  {
    FindSpec(s, c);
  }

  /** With splits left and the separator present, one part comes off the front. */
  lemma SplitMaxStep(s: string, sep: char, maxsplit: nat, i: nat)
    requires maxsplit > 0 && Find(s, sep) == Some(i) && i < |s|
    ensures |SplitMax(s, sep, maxsplit)| == 1 + |SplitMax(s[i + 1..], sep, maxsplit - 1)|
  {
  }

  /** The separator found first is one of those counted, and the rest follow it. */
  lemma CountAtFind(s: string, sep: char, i: nat)
    requires Find(s, sep) == Some(i) && i < |s|
    ensures multiset(s)[sep] == multiset(s[i + 1..])[sep] + 1
  {
    FindSpec(s, sep);
    assert s == s[..i] + [sep] + s[i + 1..];
    CountAfter(s[..i], sep, s[i + 1..]);
  }

  function Min(a: nat, b: nat): nat { if a < b then a else b }

  /** Splitting on a separator that the head lacks peels the head off, for `split(sep)` ... */
  lemma SplitAllCons(a: string, sep: char, b: string)
    requires sep !in a
    ensures SplitAll(a + [sep] + b, sep) == [a] + SplitAll(b, sep)
  {
    FindAfter(a, sep, b);
    var s := a + [sep] + b;
    assert s[..|a|] == a;
    assert s[|a| + 1..] == b;
  }

  /** ... and for `split(sep, maxsplit)` with some splits left. */
  lemma SplitMaxCons(a: string, sep: char, b: string, maxsplit: nat)
    requires sep !in a && maxsplit > 0
    ensures SplitMax(a + [sep] + b, sep, maxsplit) == [a] + SplitMax(b, sep, maxsplit - 1)
  {
    FindAfter(a, sep, b);
    var s := a + [sep] + b;
    assert s[..|a|] == a;
    assert s[|a| + 1..] == b;
  }

  lemma {:induction false} NatStrValue(n: nat)
    ensures NumeralValue(NatStr(n)) == n
  {
    if n >= 10 {
      NatStrValue(n / 10);
      var s := NatStr(n);
      assert s[..|s| - 1] == NatStr(n / 10);
    }
  }

  lemma NatStrNumeral(n: nat)
    ensures IsNumeral(NatStr(n)) && NumeralValue(NatStr(n)) == n
    ensures !IsSpace(NatStr(n)[0]) && !IsSpace(NatStr(n)[|NatStr(n)| - 1])
    ensures NatStr(n)[0] != '+' && NatStr(n)[0] != '-'
  {
    NatStrValue(n);
    var s := NatStr(n);
    assert IsDigit(s[0]) && IsDigit(s[|s| - 1]);
  }

  lemma SignedNumeralOfStr(n: int)
    ensures SignedNumeral(Str(n)) == Some(n)
  {
    if n < 0 {
      var d := NatStr(-n);
      NatStrNumeral(-n);
      assert Str(n)[1..] == d;
    } else {
      NatStrNumeral(n);
    }
  }

  /** `int()` reads back what `str()` writes, also after leading white space. */
  lemma IntStrRoundTrip(ws: string, n: int)
    requires forall i :: 0 <= i < |ws| ==> IsSpace(ws[i])
    ensures PyInt(ws + Str(n)) == Some(n)
  {
    var t := Str(n);
    if n < 0 {
      var d := NatStr(-n);
      NatStrNumeral(-n);
      assert t == "-" + d;
      assert t[|t| - 1] == d[|d| - 1];
    } else {
      NatStrNumeral(n);
    }
    StripPadded(ws, t);
    SignedNumeralOfStr(n);
  }

  /** `str(n)` writes digits and perhaps a minus sign: no white space, no colon. */
  lemma StrChars(n: int)
    ensures forall i :: 0 <= i < |Str(n)| ==> IsDigit(Str(n)[i]) || Str(n)[i] == '-'
    ensures ' ' !in Str(n) && '\n' !in Str(n) && ':' !in Str(n)
  {
    if n < 0 {
      assert Str(n) == "-" + NatStr(-n);
    }
  }

  /** Stripping a line read with its newline gives the line, when it has no white space at its ends. */
  lemma StripNewline(t: string)
    requires t != [] && !IsSpace(t[0]) && !IsSpace(t[|t| - 1])
    ensures Strip(t + "\n") == t
  {
    var s := t + "\n";
    assert StripLeft(s) == s;
    assert IsSpace(s[|s| - 1]) && s[..|s| - 1] == t;
    assert StripRight(s) == StripRight(t) == t;
  }
}
