/** How trimming and splitting act on text put together from pieces. */
module TextLaws {
  import opened Prelude
  import opened Text

  // ---------------------------------------------------------------------
  // Trimming
  // ---------------------------------------------------------------------

  lemma {:induction false} TrimKeepsFront(c: char, s: string)
    requires IsSpace(c)
    ensures Trim([c] + s) == Trim(s)
  {
    hide IsSpace;
    assert ([c] + s)[1..] == s;
  }

  lemma TrimLeftSkips(s: string)
    ensures s != "" && IsSpace(s[0]) ==> TrimLeft(s) == TrimLeft(s[1..])
    ensures s == "" || !IsSpace(s[0]) ==> TrimLeft(s) == s
  {
  }

  lemma TrimLeftMore(x: char, s: string)
    ensures TrimLeft([x] + s) == if IsSpace(x) then TrimLeft(s) else [x] + s
    ensures TrimLeft("") == ""
  {
    assert ([x] + s)[1..] == s;
  }

  lemma {:induction false} TrimLeftBefore(s: string, c: char)
    ensures TrimLeft(s + [c]) == if TrimLeft(s) == "" then TrimLeft([c]) else TrimLeft(s) + [c]
  {
    hide IsSpace, TrimLeft;
    if s == "" {
      TrimLeftMore(c, "");
      assert s + [c] == [c];
    } else {
      var x, rest := s[0], s[1..];
      TrimLeftBefore(rest, c);
      TrimLeftMore(x, rest);
      TrimLeftMore(x, rest + [c]);
      assert s == [x] + rest;
      assert s + [c] == [x] + (rest + [c]);
    }
  }

  lemma TrimKeepsBack(s: string, c: char)
    requires IsSpace(c)
    ensures Trim(s + [c]) == Trim(s)
  {
    TrimLeftBefore(s, c);
    hide IsSpace;
    var l := TrimLeft(s);
    if l == "" {
      assert TrimLeft([c]) == "";
    } else {
      assert (l + [c])[..|l|] == l;
    }
  }

  lemma {:induction false} TrimRightAfter(p: string, s: string)
    requires p != "" && !IsSpace(p[|p| - 1])
    ensures TrimRight(p + s) == p + TrimRight(s)
  {
    hide IsSpace;
    if s == "" {
      assert p + s == p;
    } else if IsSpace(s[|s| - 1]) {
      TrimRightAfter(p, s[..|s| - 1]);
      assert (p + s)[..|p + s| - 1] == p + s[..|s| - 1];
    }
  }

  lemma {:induction false} TrimAfterTrimRight(s: string)
    ensures Trim(TrimRight(s)) == Trim(s)
  {
    hide IsSpace;
    if s != "" && IsSpace(s[|s| - 1]) {
      hide TrimLeft, Trim;
      var front, c := s[..|s| - 1], s[|s| - 1];
      assert s == front + [c];
      TrimAfterTrimRight(front);
      TrimKeepsBack(front, c);
    }
  }

  lemma {:induction false} TrimLeftKeeps(s: string, c: char)
    requires c in s && !IsSpace(c)
    ensures c in TrimLeft(s)
  {
    hide IsSpace;
    assert s == [s[0]] + s[1..];
    if IsSpace(s[0]) { TrimLeftKeeps(s[1..], c); }
  }

  lemma {:induction false} TrimRightKeeps(s: string, c: char)
    requires c in s && !IsSpace(c)
    ensures c in TrimRight(s)
  {
    hide IsSpace;
    assert s == s[..|s| - 1] + [s[|s| - 1]];
    if IsSpace(s[|s| - 1]) { TrimRightKeeps(s[..|s| - 1], c); }
  }

  // ---------------------------------------------------------------------
  // Splitting
  // ---------------------------------------------------------------------

  /** Entry for entry the same text between the same separators. */
  ghost predicate ReadsAlike(a: seq<string>, b: seq<string>) {
    |a| == |b| && forall i :: 0 <= i < |a| ==> Trim(a[i]) == Trim(b[i])
  }

  /** A character in front of the text belongs to the first piece. */
  lemma SplitFront(c: char, s: string, sep: char)
    requires c != sep
    ensures Split([c] + s, sep) == [[c] + Split(s, sep)[0]] + Split(s, sep)[1..]
  {
    assert ([c] + s)[1..] == s;
    assert [s][1..] == [];
    var (a, b, found) := Cut(s, sep);
    if found {
      assert ([a] + Split(b, sep))[1..] == Split(b, sep);
    }
  }

  lemma {:induction false} CutBefore(s: string, c: char, sep: char)
    requires c != sep
    ensures var (a, b, found) := Cut(s, sep);
            Cut(s + [c], sep) == if found then (a, b + [c], true) else (s + [c], "", false)
  {
    if sep in s {
      var (a, b, _) := Cut(s, sep);
      assert s + [c] == a + [sep] + (b + [c]);
      CutFirst(a, b + [c], sep);
    }
  }

  function Init<T>(s: seq<T>): seq<T> requires s != [] { s[..|s| - 1] }

  function Last<T>(s: seq<T>): T requires s != [] { s[|s| - 1] }

  lemma {:induction false} SplitBack(s: string, c: char, sep: char)
    requires c != sep
    ensures Split(s + [c], sep) == Init(Split(s, sep)) + [Last(Split(s, sep)) + [c]]
    decreases |s|
  {
    CutBefore(s, c, sep);
    hide Cut;
    var (a, b, found) := Cut(s, sep);
    if found {
      SplitBack(b, c, sep);
      InitAfter(a, Split(b, sep), Split(s, sep));
    } else {
      assert Init([s]) == [];
    }
  }

  lemma InitAfter<T>(x: T, rest: seq<T>, all: seq<T>)
    requires rest != [] && all == [x] + rest
    ensures Init(all) == [x] + Init(rest) && Last(all) == Last(rest)
  {
  }

  lemma AlikeFront(a: seq<string>, b: seq<string>, c: char)
    requires ReadsAlike(a, b) && b != [] && IsSpace(c)
    ensures ReadsAlike(a, [[c] + b[0]] + b[1..])
  {
    hide Trim;
    TrimKeepsFront(c, b[0]);
  }

  lemma AlikeBack(a: seq<string>, b: seq<string>, c: char)
    requires ReadsAlike(a, b) && b != [] && IsSpace(c)
    ensures ReadsAlike(a, Init(b) + [Last(b) + [c]])
  {
    hide Trim;
    TrimKeepsBack(Last(b), c);
  }

  lemma AlikeSelf(a: seq<string>)
    ensures ReadsAlike(a, a)
  {
  }

  lemma {:induction false} SplitTrimmedLeft(s: string, sep: char)
    requires !IsSpace(sep)
    ensures ReadsAlike(Split(TrimLeft(s), sep), Split(s, sep))
  {
    hide IsSpace, Split, ReadsAlike;
    if s != "" && IsSpace(s[0]) {
      SplitTrimmedLeft(s[1..], sep);
      assert s == [s[0]] + s[1..];
      SplitFront(s[0], s[1..], sep);
      AlikeFront(Split(TrimLeft(s), sep), Split(s[1..], sep), s[0]);
    } else {
      AlikeSelf(Split(s, sep));
    }
  }

  lemma {:induction false} SplitTrimmedRight(s: string, sep: char)
    requires !IsSpace(sep)
    ensures ReadsAlike(Split(TrimRight(s), sep), Split(s, sep))
  {
    hide IsSpace, Split, ReadsAlike;
    if s != "" && IsSpace(s[|s| - 1]) {
      var front, c := s[..|s| - 1], s[|s| - 1];
      SplitTrimmedRight(front, sep);
      assert s == front + [c];
      SplitBack(front, c, sep);
      AlikeBack(Split(TrimRight(s), sep), Split(front, sep), c);
    } else {
      AlikeSelf(Split(s, sep));
    }
  }

  lemma SplitTrimmed(s: string, sep: char)
    requires !IsSpace(sep)
    ensures ReadsAlike(Split(Trim(s), sep), Split(s, sep))
  {
    hide Split;
    SplitTrimmedRight(TrimLeft(s), sep);
    SplitTrimmedLeft(s, sep);
  }

  lemma NoSeparator(s: string, sep: char)
    requires sep !in s
    ensures Split(s, sep) == [s]
  {
  }

  /** Splitting around a separator is splitting on either side of it. */
  lemma {:induction false} SplitAround(a: string, b: string, sep: char)
    ensures Split(a + [sep] + b, sep) == Split(a, sep) + Split(b, sep)
    decreases |a|
  {
    hide Split, Cut;
    if sep in a {
      var (x, y, _) := Cut(a, sep);
      SplitAround(y, b, sep);
      SplitFirst(x, y, sep);
      SplitFirst(x, y + [sep] + b, sep);
      assert a + [sep] + b == x + [sep] + (y + [sep] + b);
      assert [x] + Split(y, sep) + Split(b, sep) == [x] + (Split(y, sep) + Split(b, sep));
    } else {
      SplitFirst(a, b, sep);
      NoSeparator(a, sep);
    }
  }

  lemma SplitFirst(a: string, b: string, sep: char)
    requires sep !in a
    ensures Split(a + [sep] + b, sep) == [a] + Split(b, sep)
  {
    CutFirst(a, b, sep);
  }

  /** Text in front belongs to the first piece. */
  lemma SplitAfter(p: string, t: string, sep: char)
    requires sep !in p
    ensures Split(p + t, sep) == [p + Split(t, sep)[0]] + Split(t, sep)[1..]
  {
    hide Split, Cut;
    if sep in t {
      var (x, y, _) := Cut(t, sep);
      SplitFirst(x, y, sep);
      SplitFirst(p + x, y, sep);
      assert p + t == (p + x) + [sep] + y;
      assert ([x] + Split(y, sep))[1..] == Split(y, sep);
    } else {
      NoSeparator(t, sep);
      NoSeparator(p + t, sep);
    }
  }

  lemma OnePiece(s: string, sep: char)
    requires |Split(s, sep)| == 1
    ensures Split(s, sep) == [s]
  {
  }
}
