/** Field splitting: the shell cuts an expanded word in place, by writing terminators over the delimiters. */
module IfsSplitting {

  /** A character of the word; esc if a control character that quotes it stands before it. */
  datatype Unit = Unit(esc: bool, c: char)

  type Word = seq<Unit>

  const NUL := Unit(false, '\0')

  predicate IsIfs(ifs: string, u: Unit) {
    u.c in ifs
  }

  /** IFS whitespace. */
  predicate IsSpace(ifs: string, u: Unit) {
    u.c in ifs && u.c in " \t\n"
  }

  predicate IsMark(ifs: string, u: Unit) {
    u.c in ifs && u.c !in " \t\n"
  }

  // ---------------------------------------------------------------- what the fields are

  predicate Spaces(ifs: string, w: Word) {
    forall i :: 0 <= i < |w| ==> IsSpace(ifs, w[i])
  }

  predicate Plain(ifs: string, w: Word) {
    forall i :: 0 <= i < |w| ==> !IsIfs(ifs, w[i])
  }

  /** Whitespace, or one other IFS character with whitespace around it. */
  ghost predicate Delimiter(ifs: string, w: Word) {
    (w != [] && Spaces(ifs, w))
    || exists i :: 0 <= i < |w| && IsMark(ifs, w[i]) && Spaces(ifs, w[..i]) && Spaces(ifs, w[i + 1..])
  }

  function DropSpaces(ifs: string, w: Word): (r: Word)
    ensures |r| <= |w| && (r == [] || !IsSpace(ifs, r[0]))
  {
    if w != [] && IsSpace(ifs, w[0]) then DropSpaces(ifs, w[1..]) else w
  }

  /** The spaces that are dropped. */
  function Dropped(ifs: string, w: Word): (d: Word)
    ensures Spaces(ifs, d) && w == d + DropSpaces(ifs, w)
  {
    if w != [] && IsSpace(ifs, w[0]) then
      var d := Dropped(ifs, w[1..]);
      FirstDropped(ifs, w, d);
      [w[0]] + d
    else []
  }

  lemma FirstDropped(ifs: string, w: Word, d: Word)
    requires w != [] && IsSpace(ifs, w[0]) && Spaces(ifs, d) && w[1..] == d + DropSpaces(ifs, w[1..])
    ensures Spaces(ifs, [w[0]] + d) && w == [w[0]] + d + DropSpaces(ifs, w)
  {
    hide IsSpace, DropSpaces;
    DropsFirst(ifs, w);
    assert w == [w[0]] + (d + DropSpaces(ifs, w));
  }

  lemma DropsFirst(ifs: string, w: Word)
    requires w != [] && IsSpace(ifs, w[0])
    ensures DropSpaces(ifs, w) == DropSpaces(ifs, w[1..])
  {
  }

  function TakePlain(ifs: string, w: Word): (f: Word)
    ensures |f| <= |w| && f == w[..|f|] && Plain(ifs, f)
    ensures |f| < |w| ==> IsIfs(ifs, w[|f|])
  {
    if w != [] && !IsIfs(ifs, w[0]) then
      var f := [w[0]] + TakePlain(ifs, w[1..]);
      assert f[1..] == w[1..][..|f| - 1];
      f
    else []
  }

  /** The rest of a delimiter that has started with whitespace. */
  function AfterSpace(ifs: string, w: Word): Word {
    var r := DropSpaces(ifs, w);
    if r != [] && IsMark(ifs, r[0]) then DropSpaces(ifs, r[1..]) else r
  }

  /** What follows the delimiter at the start of w, the longest one there is. */
  function AfterDelimiter(ifs: string, w: Word): (r: Word)
    requires w != [] && IsIfs(ifs, w[0])
    ensures |r| < |w|
  {
    if IsSpace(ifs, w[0]) then AfterSpace(ifs, w[1..]) else DropSpaces(ifs, w[1..])
  }

  /** The fields of a word without leading IFS whitespace. */
  function Split(ifs: string, w: Word): (fs: seq<Word>)
    decreases |w|
  {
    if w == [] then []
    else
      var f := TakePlain(ifs, w);
      var rest := w[|f|..];
      if rest == [] then [f] else [f] + Split(ifs, AfterDelimiter(ifs, rest))
  }

  /** Leading IFS whitespace is dropped; what ends a field is not a field. */
  function Fields(ifs: string, w: Word): seq<Word> {
    Split(ifs, DropSpaces(ifs, w))
  }

  // ---------------------------------------------------------------- properties of the fields

  /** What lies after each field: a delimiter, or nothing after the last field if no delimiter ends the word. */
  function Gaps(ifs: string, w: Word): (ds: seq<Word>)
    decreases |w|
  {
    if w == [] then []
    else
      var f := TakePlain(ifs, w);
      var rest := w[|f|..];
      if rest == [] then [[]]
      else
        var r := AfterDelimiter(ifs, rest);
        [rest[..|rest| - |r|]] + Gaps(ifs, r)
  }

  function Interleave(fs: seq<Word>, ds: seq<Word>): Word
    requires |fs| == |ds|
  {
    if fs == [] then [] else fs[0] + ds[0] + Interleave(fs[1..], ds[1..])
  }

  /** Every field is free of IFS characters, every gap but perhaps the last is a delimiter, and nothing else is lost.
      A field is empty only between two delimiters that are not spaces. */
  ghost predicate Splits(ifs: string, w: Word, fs: seq<Word>, ds: seq<Word>) {
    && |fs| == |ds| && w == Interleave(fs, ds)
    && (forall i :: 0 <= i < |fs| ==> Plain(ifs, fs[i]))
    && (forall i :: 0 <= i < |ds| ==> Delimiter(ifs, ds[i]) || (i == |ds| - 1 && ds[i] == []))
    && (forall i :: 0 <= i < |fs| ==> FieldFits(ifs, fs, ds, i))
  }

  predicate FieldFits(ifs: string, fs: seq<Word>, ds: seq<Word>, i: nat)
    requires |fs| == |ds| && i < |fs|
  {
    fs[i] == [] ==> ds[i] != [] && IsMark(ifs, ds[i][0]) && (i > 0 ==> !Spaces(ifs, ds[i - 1]))
  }

  /** What may follow a delimiter, so that it is the longest one. */
  predicate Ends(ifs: string, d: Word, r: Word) {
    r != [] ==> !IsSpace(ifs, r[0]) && (Spaces(ifs, d) ==> !IsMark(ifs, r[0]))
  }

  lemma MarkDelimits(ifs: string, a: Word, u: Unit, b: Word)
    requires Spaces(ifs, a) && IsMark(ifs, u) && Spaces(ifs, b)
    ensures Delimiter(ifs, a + [u] + b) && !Spaces(ifs, a + [u] + b)
  {
    var d := a + [u] + b;
    assert d[..|a|] == a && d[|a| + 1..] == b;
    assert IsMark(ifs, d[|a|]);
  }

  lemma Before(w: Word, d: Word, r: Word)
    requires w == d + r
    ensures r == w[|w| - |r|..] && w[..|w| - |r|] == d
  {
  }

  /** Spaces up to a mark, the mark, and spaces after it. */
  lemma MarkInside(ifs: string, u: Unit, t: Word, a: Word, s: Word, b: Word, r: Word) returns (d: Word)
    requires Spaces(ifs, [u] + a) && t == a + s && s != [] && IsMark(ifs, s[0]) && s[1..] == b + r && Spaces(ifs, b)
    ensures t == d + r && Delimiter(ifs, [u] + d) && !Spaces(ifs, [u] + d)
  {
    hide Spaces, Delimiter;
    MarkDelimits(ifs, [u] + a, s[0], b);
    d := a + [s[0]] + b;
    assert [u] + d == [u] + a + [s[0]] + b;
    assert s == [s[0]] + (b + r);
  }

  /** The delimiter that starts with u, a space, goes on like this. */
  lemma AfterSpaceIs(ifs: string, u: Unit, t: Word) returns (d: Word)
    requires IsSpace(ifs, u)
    ensures t == d + AfterSpace(ifs, t) && Delimiter(ifs, [u] + d) && Ends(ifs, [u] + d, AfterSpace(ifs, t))
  {
    hide DropSpaces, Delimiter, Spaces, Dropped, IsSpace, IsMark;
    var a := Dropped(ifs, t);
    OneSpace(ifs, u, a);
    var s := DropSpaces(ifs, t);
    if s != [] && IsMark(ifs, s[0]) {
      d := MarkInside(ifs, u, t, a, s, Dropped(ifs, s[1..]), DropSpaces(ifs, s[1..]));
    } else {
      d := a;
    }
  }

  lemma AfterDelimiterIs(ifs: string, w: Word)
    requires w != [] && IsIfs(ifs, w[0])
    ensures
      var r := AfterDelimiter(ifs, w);
      var d := w[..|w| - |r|];
      r == w[|w| - |r|..] && Delimiter(ifs, d) && Ends(ifs, d, r)
  {
    hide DropSpaces, AfterSpace, Delimiter, Spaces, Dropped;
    var t := w[1..];
    var r := AfterDelimiter(ifs, w);
    var d;
    if IsSpace(ifs, w[0]) {
      d := AfterSpaceIs(ifs, w[0], t);
    } else {
      d := Dropped(ifs, t);
      OneSpace(ifs, w[0], []);
      MarkDelimits(ifs, [], w[0], d);
      assert [] + [w[0]] + d == [w[0]] + d;
    }
    assert w == [w[0]] + d + r;
    Before(w, [w[0]] + d, r);
  }

  lemma OneSpace(ifs: string, u: Unit, a: Word)
    requires a == [] || Spaces(ifs, a)
    ensures IsSpace(ifs, u) ==> Spaces(ifs, [u] + a) && Delimiter(ifs, [u] + a)
    ensures Spaces(ifs, [])
  {
  }

  /** One more field and delimiter in front. */
  lemma SplitsMore(ifs: string, f: Word, d: Word, r: Word, fs: seq<Word>, ds: seq<Word>)
    requires Splits(ifs, r, fs, ds) && Plain(ifs, f) && Delimiter(ifs, d) && Ends(ifs, d, r)
    requires f != [] || IsMark(ifs, d[0])
    ensures Splits(ifs, f + d + r, [f] + fs, [d] + ds)
  {
    hide Delimiter, Spaces, Plain;
    assert ([f] + fs)[1..] == fs && ([d] + ds)[1..] == ds;
    forall i | 0 <= i < |fs| + 1
      ensures FieldFits(ifs, [f] + fs, [d] + ds, i)
    {
      if i == 0 {
        DelimiterNonempty(ifs, d);
      } else {
        assert FieldFits(ifs, fs, ds, i - 1);
        if i == 1 && fs[0] == [] {
          assert r[0] == ds[0][0];
        }
      }
    }
  }

  lemma DelimiterNonempty(ifs: string, d: Word)
    requires Delimiter(ifs, d)
    ensures d != [] && IsIfs(ifs, d[0])
  {
    if !Spaces(ifs, d) {
      var i :| 0 <= i < |d| && IsMark(ifs, d[i]) && Spaces(ifs, d[..i]);
      assert i > 0 ==> d[0] == d[..i][0];
    }
  }

  /** The fields of a word, with their delimiters, are the word. */
  lemma {:induction false} SplitSplits(ifs: string, w: Word)
    requires w == [] || !IsSpace(ifs, w[0])
    ensures Splits(ifs, w, Split(ifs, w), Gaps(ifs, w))
    decreases |w|
  {
    hide AfterDelimiter, DropSpaces, Delimiter, Splits, IsSpace, IsMark, IsIfs, TakePlain, Plain;
    if w == [] {
      SplitsNothing(ifs);
    } else {
      var f := TakePlain(ifs, w);
      var rest := w[|f|..];
      assert w == f + rest;
      SpaceOrMark(ifs, w[0]);
      if rest == [] {
        assert f + [] == f;
        SplitsOne(ifs, w);
      } else {
        var r := AfterDelimiter(ifs, rest);
        AfterDelimiterIs(ifs, rest);
        SplitSplits(ifs, r);
        var d := rest[..|rest| - |r|];
        DelimiterNonempty(ifs, d);
        assert w == f + d + r;
        SplitsMore(ifs, f, d, r, Split(ifs, r), Gaps(ifs, r));
      }
    }
  }

  lemma SplitsNothing(ifs: string)
    ensures Splits(ifs, [], [], [])
  {
  }

  lemma SplitsOne(ifs: string, w: Word)
    requires Plain(ifs, w) && w != []
    ensures Splits(ifs, w, [w], [[]])
  {
    assert Interleave([w], [[]]) == w + [] + Interleave([w][1..], [[]][1..]);
  }

  lemma SpaceOrMark(ifs: string, u: Unit)
    ensures IsSpace(ifs, u) <==> IsIfs(ifs, u) && u.c in " \t\n"
    ensures IsMark(ifs, u) <==> IsIfs(ifs, u) && !(u.c in " \t\n")
  {
  }

  /** There is no other way to split the word. */
  lemma {:induction false} SplitUnique(ifs: string, w: Word, fs: seq<Word>, ds: seq<Word>)
    requires Splits(ifs, w, fs, ds)
    ensures fs == Split(ifs, w)
    decreases |fs|
  {
    hide AfterDelimiter, DropSpaces, Delimiter, TakePlain, Spaces;
    if fs != [] {
      var f, d := fs[0], ds[0];
      var gs, es := fs[1..], ds[1..];
      var r := Interleave(gs, es);
      assert w == f + d + r;
      assert FieldFits(ifs, fs, ds, 0);
      if d == [] {
        if Delimiter(ifs, d) {
          DelimiterNonempty(ifs, d);
        }
        assert gs == [] && es == [];
        assert w == f && f + [] == f;
        TakePlainIs(ifs, f, []);
      } else {
        assert Delimiter(ifs, d);
        DelimiterNonempty(ifs, d);
        SplitsRest(ifs, w, fs, ds);
        SplitUnique(ifs, r, gs, es);
        TakePlainIs(ifs, f, d + r);
        assert w == f + (d + r) && w[|f|..] == d + r;
        DelimiterEnds(ifs, d, r);
      }
    }
  }

  lemma SplitsRest(ifs: string, w: Word, fs: seq<Word>, ds: seq<Word>)
    requires Splits(ifs, w, fs, ds) && fs != []
    ensures
      var r := Interleave(fs[1..], ds[1..]);
      Splits(ifs, r, fs[1..], ds[1..]) && (ds[0] != [] ==> Ends(ifs, ds[0], r))
  {
    hide Delimiter, Spaces;
    var gs, es := fs[1..], ds[1..];
    forall i | 0 <= i < |gs|
      ensures FieldFits(ifs, gs, es, i)
    {
      assert FieldFits(ifs, fs, ds, i + 1);
    }
    if gs != [] {
      assert FieldFits(ifs, fs, ds, 1);
      assert Plain(ifs, fs[1]);
      var r := Interleave(gs, es);
      assert r[0] == if gs[0] != [] then gs[0][0] else es[0][0];
      SpaceOrMark(ifs, r[0]);
    }
  }

  /** A delimiter is passed over as a whole. */
  lemma DelimiterEnds(ifs: string, d: Word, r: Word)
    requires Delimiter(ifs, d) && Ends(ifs, d, r)
    ensures d != [] && IsIfs(ifs, d[0]) && AfterDelimiter(ifs, d + r) == r
  {
    hide DropSpaces, Spaces, IsSpace, IsMark, IsIfs, AfterDelimiter;
    DelimiterNonempty(ifs, d);
    if r != [] {
      SpaceOrMark(ifs, r[0]);
    }
    if Spaces(ifs, d) {
      SpacesPassed(ifs, d, r);
    } else {
      var i :| 0 <= i < |d| && IsMark(ifs, d[i]) && Spaces(ifs, d[..i]) && Spaces(ifs, d[i + 1..]);
      MarkPassed(ifs, d[..i], d[i], d[i + 1..], r);
      assert d == d[..i] + [d[i]] + d[i + 1..];
    }
  }

  lemma SpacesPassed(ifs: string, d: Word, r: Word)
    requires d != [] && Spaces(ifs, d) && (r != [] ==> !IsIfs(ifs, r[0]))
    ensures IsIfs(ifs, d[0]) && AfterDelimiter(ifs, d + r) == r
  {
    hide DropSpaces, Spaces, IsSpace, IsMark, IsIfs;
    SpacesTail(ifs, d);
    SpaceOrMark(ifs, d[0]);
    if r != [] {
      SpaceOrMark(ifs, r[0]);
    }
    DropsSpaces(ifs, d[1..], r);
    assert (d + r)[1..] == d[1..] + r;
  }

  lemma MarkPassed(ifs: string, a: Word, u: Unit, b: Word, r: Word)
    requires Spaces(ifs, a) && IsMark(ifs, u) && Spaces(ifs, b) && (r != [] ==> !IsSpace(ifs, r[0]))
    ensures
      var w := a + [u] + b + r;
      IsIfs(ifs, w[0]) && AfterDelimiter(ifs, w) == r
  {
    hide DropSpaces, Spaces, IsSpace, IsMark, IsIfs;
    var w, m := a + [u] + b + r, [u] + b + r;
    SpaceOrMark(ifs, u);
    DropsSpaces(ifs, b, r);
    assert m[1..] == b + r;
    if a == [] {
      assert w == m;
    } else {
      SpacesTail(ifs, a);
      SpaceOrMark(ifs, a[0]);
      DropsSpaces(ifs, a[1..], m);
      assert w[1..] == a[1..] + m;
    }
  }

  lemma SpacesTail(ifs: string, a: Word)
    requires Spaces(ifs, a) && a != []
    ensures IsSpace(ifs, a[0]) && Spaces(ifs, a[1..])
  {
  }

  lemma {:induction false} DropsSpaces(ifs: string, s: Word, r: Word)
    requires Spaces(ifs, s) && (r == [] || !IsSpace(ifs, r[0]))
    ensures DropSpaces(ifs, s + r) == r
    decreases |s|
  {
    if s == [] {
      assert s + r == r;
    } else {
      assert (s + r)[1..] == s[1..] + r;
      DropsSpaces(ifs, s[1..], r);
    }
  }

  /** A whole word: leading whitespace, then fields and delimiters. */
  lemma FieldsSplit(ifs: string, w: Word)
    ensures
      var r := DropSpaces(ifs, w);
      && w == Dropped(ifs, w) + r && Spaces(ifs, Dropped(ifs, w))
      && Splits(ifs, r, Fields(ifs, w), Gaps(ifs, r))
  {
    hide Splits, Split, Gaps;
    SplitSplits(ifs, DropSpaces(ifs, w));
  }

  // ---------------------------------------------------------------- the loop

  lemma SplitField(ifs: string, f: Word, u: Unit, rest: Word)
    requires Plain(ifs, f) && IsIfs(ifs, u) && (f != [] || !IsSpace(ifs, u))
    ensures Fields(ifs, f + [u] + rest) == [f] + Split(ifs, AfterDelimiter(ifs, [u] + rest))
  {
    var w := f + [u] + rest;
    assert w[0] == if f == [] then u else f[0];
    TakePlainIs(ifs, f, [u] + rest);
    assert w == f + ([u] + rest);
    assert w[|f|..] == [u] + rest;
  }

  lemma {:induction false} TakePlainIs(ifs: string, f: Word, rest: Word)
    requires Plain(ifs, f) && (rest == [] || IsIfs(ifs, rest[0]))
    ensures TakePlain(ifs, f + rest) == f
    decreases |f|
  {
    if f != [] {
      assert (f + rest)[1..] == f[1..] + rest;
      TakePlainIs(ifs, f[1..], rest);
    } else {
      assert f + rest == rest;
    }
  }

  lemma SplitLast(ifs: string, f: Word)
    requires Plain(ifs, f)
    ensures Fields(ifs, f) == if f == [] then [] else [f]
  {
    TakePlainIs(ifs, f, []);
    assert f + [] == f;
  }

  /** A C string in the buffer, all of it before lim. */
  ghost predicate TextAt(b: seq<Unit>, p: nat, f: Word, lim: nat) {
    p + |f| < lim <= |b| && b[p..p + |f|] == f && b[p + |f|] == NUL && NUL !in f
  }

  ghost predicate Texts(b: seq<Unit>, args: seq<nat>, fs: seq<Word>, lim: nat) {
    |args| == |fs| && forall k :: 0 <= k < |args| ==> TextAt(b, args[k], fs[k], lim)
  }

  lemma TextsKept(b: seq<Unit>, q: nat, args: seq<nat>, fs: seq<Word>, lim: nat, lim': nat)
    requires Texts(b, args, fs, lim) && lim <= q < |b| && lim <= lim' <= |b|
    ensures Texts(b[q := NUL], args, fs, lim')
  {
    var b' := b[q := NUL];
    forall k | 0 <= k < |args|
      ensures TextAt(b', args[k], fs[k], lim')
    {
      assert TextAt(b, args[k], fs[k], lim);
      var p, n := args[k], |fs[k]|;
      assert b'[p..p + n] == b[p..p + n];
    }
  }

  /** What the part of the word from start on still contributes, with the loop at i: in the middle of a delimiter that
      has started with whitespace, or in a field. */
  function Left(ifs: string, w: Word, start: nat, i: nat, ifsspc: bool): seq<Word>
    requires start <= i <= |w|
  {
    if ifsspc then Split(ifs, AfterSpace(ifs, w[i..])) else Fields(ifs, w[start..])
  }

  lemma LeftSkipsSpace(ifs: string, w: Word, i: nat)
    requires i < |w| && IsSpace(ifs, w[i])
    ensures AfterSpace(ifs, w[i..]) == AfterSpace(ifs, w[i + 1..])
    ensures Fields(ifs, w[i..]) == Fields(ifs, w[i + 1..])
  {
    assert w[i..][1..] == w[i + 1..];
  }

  lemma LeftMark(ifs: string, w: Word, i: nat)
    requires i < |w| && IsMark(ifs, w[i])
    ensures Split(ifs, AfterSpace(ifs, w[i..])) == Fields(ifs, w[i + 1..])
  {
    assert w[i..][1..] == w[i + 1..];
  }

  lemma LeftPlain(ifs: string, w: Word, i: nat)
    requires i < |w| && !IsIfs(ifs, w[i])
    ensures Split(ifs, AfterSpace(ifs, w[i..])) == Fields(ifs, w[i..])
  {
  }

  lemma AfterOne(ifs: string, u: Unit, rest: Word)
    requires IsIfs(ifs, u)
    ensures Split(ifs, AfterDelimiter(ifs, [u] + rest))
            == if IsSpace(ifs, u) then Split(ifs, AfterSpace(ifs, rest)) else Fields(ifs, rest)
  {
    hide Split, DropSpaces, AfterSpace;
    assert ([u] + rest)[1..] == rest;
  }

  /** A field ends at the IFS character at i. */
  lemma LeftEmits(ifs: string, w: Word, start: nat, i: nat)
    requires start <= i < |w| && Plain(ifs, w[start..i]) && IsIfs(ifs, w[i]) && (start < i || !IsSpace(ifs, w[i]))
    ensures Fields(ifs, w[start..]) == [w[start..i]] + Left(ifs, w, i + 1, i + 1, IsSpace(ifs, w[i]))
  {
    hide Split, Fields, AfterDelimiter, AfterSpace, Plain, IsIfs, IsSpace;
    SplitField(ifs, w[start..i], w[i], w[i + 1..]);
    assert w[start..] == w[start..i] + [w[i]] + w[i + 1..];
    AfterOne(ifs, w[i], w[i + 1..]);
  }

  lemma Started(b: seq<Unit>, ifs: string)
    ensures Texts(b, [], [], 0) && Plain(ifs, [])
  {
  }

  lemma Advance(b: seq<Unit>, ifs: string, w: Word, args: seq<nat>, out: seq<Word>, lim: nat, lim': nat)
    requires Texts(b, args, out, lim) && lim <= lim' <= |b|
    ensures Texts(b, args, out, lim') && (lim' <= |w| ==> Plain(ifs, w[lim'..lim']))
  {
    forall k | 0 <= k < |args|
      ensures TextAt(b, args[k], out[k], lim')
    {
      assert TextAt(b, args[k], out[k], lim);
    }
  }

  lemma Longer(ifs: string, w: Word, start: nat, p: nat)
    requires start < p <= |w| && Plain(ifs, w[start..p - 1]) && !IsIfs(ifs, w[p - 1])
    ensures Plain(ifs, w[start..p])
  {
    assert w[start..p] == w[start..p - 1] + [w[p - 1]];
  }

  lemma Emit(b: seq<Unit>, ifs: string, w: Word, args: seq<nat>, out: seq<Word>, start: nat, q: nat)
    requires Texts(b, args, out, start) && start <= q <= |w| < |b| && NUL !in w
    requires forall k :: start <= k < q ==> b[k] == w[k]
    ensures Texts(b[q := NUL], args + [start], out + [w[start..q]], q + 1)
    ensures q < |w| ==> Plain(ifs, w[q + 1..q + 1])
  {
    var b', f := b[q := NUL], w[start..q];
    TextsKept(b, q, args, out, start, q + 1);
    assert b'[start..start + |f|] == f;
    forall k | 0 <= k < |args| + 1
      ensures TextAt(b', (args + [start])[k], (out + [f])[k], q + 1)
    {
      assert k < |args| ==> TextAt(b', args[k], out[k], q + 1);
    }
  }

  lemma LeftAtEnd(ifs: string, w: Word, start: nat, ifsspc: bool)
    requires start <= |w| && (ifsspc ==> start == |w|) && Plain(ifs, w[start..|w|])
    ensures Left(ifs, w, start, |w|, ifsspc) == if start == |w| then [] else [w[start..|w|]]
  {
    assert w[start..] == w[start..|w|];
    SplitLast(ifs, w[start..]);
  }

  /** Cuts the first n characters of the buffer, which a terminator ends, into fields; args are where they start. */
  method Ifsbreakup(buf: array<Unit>, ifs: string) returns (args: seq<nat>)
    requires buf.Length > 0 && buf[buf.Length - 1] == NUL && NUL !in buf[..buf.Length - 1]
    modifies buf
    ensures Texts(buf[..], args, Fields(ifs, old(buf[..buf.Length - 1])), buf.Length)
  {
    hide Fields, Split, AfterSpace, IsIfs, IsSpace, IsMark, Plain, Texts;
    ghost var w := buf[..buf.Length - 1];
    ghost var out: seq<Word> := [];
    ghost var all := Fields(ifs, w);
    var n := buf.Length - 1;
    var start, p, ifsspc := 0, 0, false;
    args := [];
    Started(buf[..], ifs);
    assert w[0..] == w && out + all == all;
    while p < n
      invariant 0 <= start <= p <= n && (ifsspc ==> start == p)
      invariant Plain(ifs, w[start..p]) && Texts(buf[..], args, out, start)
      invariant forall k :: start <= k < n ==> buf[k] == w[k]
      invariant buf[n] == NUL
      invariant all == out + Left(ifs, w, start, p, ifsspc)
      decreases n - p
    {
      var q := p;
      var u := buf[p];
      p := p + 1;
      var isifs := IsIfs(ifs, u);
      var isdefifs := isifs && u.c in " \t\n";
      SpaceOrMark(ifs, u);
      ghost var start0, q0 := start, q;
      if ifsspc {
        if isifs {
          q := p;
        }
        start := q;
        Advance(buf[..], ifs, w, args, out, start0, start);
        if isdefifs {
          LeftSkipsSpace(ifs, w, q0);
          continue;
        }
        if isifs {
          LeftMark(ifs, w, q0);
        } else {
          LeftPlain(ifs, w, q0);
        }
        isifs := false;
      }
      if isifs {
        ifsspc := isdefifs;
        if q == start && ifsspc {
          LeftSkipsSpace(ifs, w, q0);
          start := p;
          ifsspc := false;
          Advance(buf[..], ifs, w, args, out, start0, start);
          continue;
        }
        LeftEmits(ifs, w, start, q);
        Emit(buf[..], ifs, w, args, out, start, q);
        ghost var f := w[start..q];
        buf[q] := NUL;
        args := args + [start];
        start := p;
        assert all == out + ([f] + Left(ifs, w, p, p, ifsspc)) == out + [f] + Left(ifs, w, p, p, ifsspc);
        out := out + [f];
        continue;
      }
      ifsspc := false;
      if start < p {
        Longer(ifs, w, start, p);
      }
    }
    LeftAtEnd(ifs, w, start, ifsspc);
    if buf[start] == NUL {
      assert out + [] == out;
      Advance(buf[..], ifs, w, args, out, start, n + 1);
      return;
    }
    Emit(buf[..], ifs, w, args, out, start, n);
    assert buf[..][n := NUL] == buf[..];
    args := args + [start];
  }
}
