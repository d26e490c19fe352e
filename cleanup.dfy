/** The cleanup of the "market gain" cell text before it is read as a
    number: `re.sub("\r\n\t*", "", text).replace(',', '')`. */
module Cleanup {

  /** `r` is obtained from `s` by deleting characters. */
  predicate IsSubsequence(r: string, s: string)
    decreases |s|
  {
    || r == []
    || (s != [] && ((r[0] == s[0] && IsSubsequence(r[1..], s[1..])) || IsSubsequence(r, s[1..])))
  }

  /** `s` holds a carriage return immediately followed by a line feed. */
  predicate HasLineBreak(s: string)
  {
    |s| >= 2 && ((s[0] == '\r' && s[1] == '\n') || HasLineBreak(s[1..]))
  }

  predicate AllTabs(s: string) { forall i :: 0 <= i < |s| ==> s[i] == '\t' }

  /** What is left once `\t*` has consumed the leading run of tabs. */
  function SkipTabs(s: string): (r: string)
    ensures |r| <= |s|
    ensures r == [] || r[0] != '\t'
  {
    if s != [] && s[0] == '\t' then SkipTabs(s[1..]) else s
  }

  /** What `SkipTabs` leaves is a suffix, behind a run of tabs. */
  lemma {:induction false} SkipTabsSuffix(s: string)
    ensures SkipTabs(s) == s[|s| - |SkipTabs(s)|..]
    ensures AllTabs(s[..|s| - |SkipTabs(s)|])
  {
    if s != [] && s[0] == '\t' {
      SkipTabsSuffix(s[1..]);
      var r := SkipTabs(s[1..]);
      assert s[1..][|s| - 1 - |r|..] == s[|s| - |r|..];
      assert s[..|s| - |r|] == [s[0]] + s[1..][..|s| - 1 - |r|];
    }
  }

  /** `re.sub("\r\n\t*", "", s)`: one left-to-right pass that deletes every
      carriage return and line feed pair together with the tabs after it. */
  function RemoveLineBreaks(s: string): (r: string)
    ensures |r| <= |s|
    decreases |s|
  {
    if |s| >= 2 && s[0] == '\r' && s[1] == '\n' then RemoveLineBreaks(SkipTabs(s[2..]))
    else if s == [] then []
    else [s[0]] + RemoveLineBreaks(s[1..])
  }

  /** `s.replace(',', '')`. */
  function RemoveCommas(s: string): (r: string)
    ensures ',' !in r
    ensures |r| <= |s|
  {
    if s == [] then []
    else if s[0] == ',' then RemoveCommas(s[1..])
    else [s[0]] + RemoveCommas(s[1..])
  }

  /** The text handed to `float()` for a gain cell. */
  function CleanReturn(s: string): (r: string)
    ensures ',' !in r
    ensures |r| <= |s|
  {
    RemoveCommas(RemoveLineBreaks(s))
  }

  lemma {:induction false} SubsequenceTransitive(a: string, b: string, c: string)
    requires IsSubsequence(a, b) && IsSubsequence(b, c)
    ensures IsSubsequence(a, c)
    decreases |c|
  {
    if a != [] {
      if b[0] == c[0] && IsSubsequence(b[1..], c[1..]) {
        if a[0] == b[0] && IsSubsequence(a[1..], b[1..]) {
          SubsequenceTransitive(a[1..], b[1..], c[1..]);
        } else {
          SubsequenceTransitive(a, b[1..], c[1..]);
        }
      } else {
        SubsequenceTransitive(a, b, c[1..]);
      }
    }
  }

  /** A subsequence of a suffix is a subsequence of the whole. */
  lemma {:induction false} SubsequenceOfSuffix(r: string, s: string, k: nat)
    requires k <= |s| && IsSubsequence(r, s[k..])
    ensures IsSubsequence(r, s)
  {
    if k > 0 {
      assert s[k..] == s[1..][k - 1..];
      SubsequenceOfSuffix(r, s[1..], k - 1);
    }
  }

  lemma {:induction false} RemoveLineBreaksSubsequence(s: string)
    ensures IsSubsequence(RemoveLineBreaks(s), s)
    decreases |s|
  {
    if |s| >= 2 && s[0] == '\r' && s[1] == '\n' {
      var t := SkipTabs(s[2..]);
      RemoveLineBreaksSubsequence(t);
      SkipTabsSuffix(s[2..]);
      assert t == s[2..][|s| - 2 - |t|..] == s[|s| - |t|..];
      SubsequenceOfSuffix(RemoveLineBreaks(t), s, |s| - |t|);
    } else if s != [] {
      RemoveLineBreaksSubsequence(s[1..]);
    }
  }

  lemma {:induction false} RemoveCommasSubsequence(s: string)
    ensures IsSubsequence(RemoveCommas(s), s)
  {
    if s != [] {
      RemoveCommasSubsequence(s[1..]);
    }
  }

  /** The cleaned text is the cell text with characters deleted, so it is
      never longer and holds no comma. */
  lemma CleanReturnSubsequence(s: string)
    ensures IsSubsequence(CleanReturn(s), s)
  {
    RemoveCommasSubsequence(RemoveLineBreaks(s));
    RemoveLineBreaksSubsequence(s);
    SubsequenceTransitive(CleanReturn(s), RemoveLineBreaks(s), s);
  }

  /** Only commas, carriage returns, line feeds and tabs are ever deleted:
      every other character keeps its number of occurrences. */
  predicate Removable(c: char) { c == ',' || c == '\r' || c == '\n' || c == '\t' }

  lemma {:induction false} SkipTabsKeeps(s: string, c: char)
    requires c != '\t'
    ensures multiset(SkipTabs(s))[c] == multiset(s)[c]
  {
    if s != [] && s[0] == '\t' {
      SkipTabsKeeps(s[1..], c);
      assert s == [s[0]] + s[1..];
    }
  }

  lemma {:induction false} RemoveLineBreaksKeeps(s: string, c: char)
    requires !Removable(c)
    ensures multiset(RemoveLineBreaks(s))[c] == multiset(s)[c]
    decreases |s|
  {
    if |s| >= 2 && s[0] == '\r' && s[1] == '\n' {
      RemoveLineBreaksKeeps(SkipTabs(s[2..]), c);
      SkipTabsKeeps(s[2..], c);
      assert s == [s[0], s[1]] + s[2..];
      assert multiset(s)[c] == multiset(s[2..])[c];
    } else if s != [] {
      RemoveLineBreaksKeeps(s[1..], c);
      assert s == [s[0]] + s[1..];
    }
  }

  lemma {:induction false} RemoveCommasKeeps(s: string, c: char)
    requires c != ','
    ensures multiset(RemoveCommas(s))[c] == multiset(s)[c]
  {
    if s != [] {
      RemoveCommasKeeps(s[1..], c);
      assert s == [s[0]] + s[1..];
    }
  }

  lemma CleanReturnKeeps(s: string)
    ensures forall c :: !Removable(c) ==> multiset(CleanReturn(s))[c] == multiset(s)[c]
  {
    forall c | !Removable(c)
      ensures multiset(CleanReturn(s))[c] == multiset(s)[c]
    {
      RemoveLineBreaksKeeps(s, c);
      RemoveCommasKeeps(RemoveLineBreaks(s), c);
    }
  }

  lemma {:induction false} RemoveLineBreaksIdentity(s: string)
    requires !HasLineBreak(s)
    ensures RemoveLineBreaks(s) == s
  {
    if s != [] {
      RemoveLineBreaksIdentity(s[1..]);
      assert [s[0]] + s[1..] == s;
    }
  }

  lemma {:induction false} RemoveCommasIdentity(s: string)
    requires ',' !in s
    ensures RemoveCommas(s) == s
  {
    if s != [] {
      RemoveCommasIdentity(s[1..]);
      assert [s[0]] + s[1..] == s;
    }
  }

  /** Text with no comma and no carriage return and line feed pair comes
      through unchanged. */
  lemma CleanReturnIdentity(s: string)
    requires ',' !in s && !HasLineBreak(s)
    ensures CleanReturn(s) == s
  {
    RemoveLineBreaksIdentity(s);
    RemoveCommasIdentity(s);
  }

  /** Text before the first line break is kept as it is. */
  lemma {:induction false} LineBreakFreePrefix(a: string, rest: string)
    requires !HasLineBreak(a)
    requires a == [] || a[|a| - 1] != '\r' || rest == [] || rest[0] != '\n'
    ensures RemoveLineBreaks(a + rest) == a + RemoveLineBreaks(rest)
  {
    if a == [] {
      assert a + rest == rest;
    } else {
      var s := a + rest;
      assert s[1..] == a[1..] + rest;
      calc {
        RemoveLineBreaks(s);
        { assert s[0] == a[0];
          if |a| >= 2 { assert s[1] == a[1]; } }
        [a[0]] + RemoveLineBreaks(a[1..] + rest);
        { LineBreakFreePrefix(a[1..], rest); }
        [a[0]] + (a[1..] + RemoveLineBreaks(rest));
        a + RemoveLineBreaks(rest);
      }
    }
  }

  /** The regex deletes the first line break together with the whole run of
      tabs after it, and keeps everything in front of it: applied to
      `a + "\r\n" + tabs + b`, with `b` not starting with a tab, the result
      is `a` followed by the cleanup of `b`. */
  lemma FirstLineBreakRemoved(a: string, tabs: string, b: string)
    requires !HasLineBreak(a) && AllTabs(tabs)
    requires b == [] || b[0] != '\t'
    ensures RemoveLineBreaks(a + "\r\n" + tabs + b) == a + RemoveLineBreaks(b)
  {
    var rest := ['\r', '\n'] + (tabs + b);
    calc {
      RemoveLineBreaks(a + "\r\n" + tabs + b);
      { assert a + "\r\n" + tabs + b == a + rest; }
      RemoveLineBreaks(a + rest);
      { LineBreakFreePrefix(a, rest); }
      a + RemoveLineBreaks(rest);
      { LineBreakThenTabs(tabs, b); }
      a + RemoveLineBreaks(b);
    }
  }

  lemma LineBreakThenTabs(tabs: string, b: string)
    requires AllTabs(tabs) && (b == [] || b[0] != '\t')
    ensures RemoveLineBreaks(['\r', '\n'] + (tabs + b)) == RemoveLineBreaks(b)
  {
    var rest := ['\r', '\n'] + (tabs + b);
    assert rest[2..] == tabs + b;
    SkipAllTabs(tabs, b);
  }

  lemma {:induction false} SkipAllTabs(tabs: string, b: string)
    requires AllTabs(tabs) && (b == [] || b[0] != '\t')
    ensures SkipTabs(tabs + b) == b
  {
    if tabs != [] {
      assert (tabs + b)[1..] == tabs[1..] + b;
      SkipAllTabs(tabs[1..], b);
    }
  }

  /** Without a carriage return there is no line break to delete. */
  lemma {:induction false} NoCarriageReturn(s: string)
    requires '\r' !in s
    ensures !HasLineBreak(s)
  {
    if |s| >= 2 {
      NoCarriageReturn(s[1..]);
    }
  }

  /** A thousands separator is dropped: `"1,234.50"` becomes `"1234.50"`. */
  lemma CommaExample()
    ensures CleanReturn("1,234.50") == "1234.50"
  {
    CommaBetween("1", "234.50");
    assert "1" + [','] + "234.50" == "1,234.50";
    assert "1" + "234.50" == "1234.50";
  }

  /** A single comma between comma free, carriage return free texts is
      the only thing removed. */
  lemma CommaBetween(a: string, b: string)
    requires ',' !in a && '\r' !in a && ',' !in b && '\r' !in b
    ensures CleanReturn(a + [','] + b) == a + b
  {
    var s := a + [','] + b;
    calc {
      CleanReturn(s);
      { NoCarriageReturn(s); RemoveLineBreaksIdentity(s); }
      RemoveCommas(s);
      { assert s == a + ([','] + b); RemoveCommasConcat(a, [','] + b); }
      RemoveCommas(a) + RemoveCommas([','] + b);
      { assert ([','] + b)[1..] == b; }
      RemoveCommas(a) + RemoveCommas(b);
      { RemoveCommasIdentity(a); RemoveCommasIdentity(b); }
      a + b;
    }
  }

  lemma {:induction false} RemoveCommasConcat(a: string, b: string)
    ensures RemoveCommas(a + b) == RemoveCommas(a) + RemoveCommas(b)
  {
    if a != [] {
      assert (a + b)[1..] == a[1..] + b;
      RemoveCommasConcat(a[1..], b);
    } else {
      assert a + b == b;
    }
  }

  /** A leading line break and its tab vanish: `"\r\n\t12.0"` becomes `"12.0"`. */
  lemma LineBreakExample()
    ensures CleanReturn("\r\n\t12.0") == "12.0"
  {
    calc {
      CleanReturn("\r\n\t12.0");
      { assert "\r\n\t12.0" == ['\r', '\n'] + ("\t" + "12.0"); }
      RemoveCommas(RemoveLineBreaks(['\r', '\n'] + ("\t" + "12.0")));
      { LineBreakThenTabs("\t", "12.0"); }
      CleanReturn("12.0");
      { CleanReturnIdentity("12.0"); }
      "12.0";
    }
  }

  /** The regex makes a single pass: deleting the inner pair of
      `"\r\r\n\n"` leaves a new pair behind. */
  lemma SinglePassExample()
    ensures RemoveLineBreaks("\r\r\n\n") == "\r\n"
  {
    assert "\r\r\n\n" == "\r" + "\r\n" + "" + "\n";
    FirstLineBreakRemoved("\r", "", "\n");
  }
}
