/** The logical directory name that cd keeps: the old name and the operand, joined and normalised character by
    character on a growing buffer. */
module LogicalPath {

  // ---------------------------------------------------------------- components

  predicate NoSlash(s: string) {
    '/' !in s
  }

  /** The index of the first slash, or the length. */
  function SlashAt(s: string): (i: nat)
    ensures i <= |s| && NoSlash(s[..i]) && (i < |s| ==> s[i] == '/')
  {
    if s == "" || s[0] == '/' then 0
    else
      var i := 1 + SlashAt(s[1..]);
      assert s[..i] == [s[0]] + s[1..][..i - 1];
      i
  }

  lemma {:induction false} SlashFound(s: string)
    requires s != "" && s[|s| - 1] == '/'
    ensures SlashAt(s) < |s|
    decreases |s|
  {
    if s[0] != '/' {
      SlashFound(s[1..]);
    }
  }

  /** The components of a path that are not empty. */
  function Tokens(s: string): (ts: seq<string>)
    decreases |s|
  {
    if s == "" then []
    else if s[0] == '/' then Tokens(s[1..])
    else [s[..SlashAt(s)]] + Tokens(s[SlashAt(s)..])
  }

  /** What one component does: nothing, one step up, or one step down. */
  function Enter(stack: seq<string>, c: string): seq<string> {
    if c == "." then stack
    else if c == ".." then if stack == [] then [] else stack[..|stack| - 1]
    else stack + [c]
  }

  function Walk(stack: seq<string>, ts: seq<string>): seq<string>
    decreases |ts|
  {
    if ts == [] then stack else Walk(Enter(stack, ts[0]), ts[1..])
  }

  /** Components, each with a slash behind it. */
  function Trail(stack: seq<string>): string {
    if stack == [] then "" else Trail(stack[..|stack| - 1]) + stack[|stack| - 1] + "/"
  }

  /** A path without a slash at its end, unless it is the root. */
  function Show(root: string, stack: seq<string>): string {
    var t := Trail(stack);
    if t == "" then root else root + t[..|t| - 1]
  }

  /** Two slashes at the start stay two; any other number is one. */
  function RootOf(dir: string): string {
    if |dir| > 1 && dir[1] == '/' && (|dir| == 2 || dir[2] != '/') then "//" else "/"
  }

  /** The directory name with a slash at its end. */
  function Slashed(cur: string): string
    requires cur != ""
  {
    if cur[|cur| - 1] == '/' then cur else cur + "/"
  }

  function CurRoot(cur: string): (r: string)
    requires cur != "" && cur[0] == '/'
    ensures 1 <= |r| <= |Slashed(cur)| && r == Slashed(cur)[..|r|]
  {
    var s := Slashed(cur);
    if |s| > 1 && s[1] == '/' then s[..2] else s[..1]
  }

  /** The components of a string that ends with a slash, empty ones included. */
  function Chop(s: string): (stack: seq<string>)
    requires s == "" || s[|s| - 1] == '/'
    decreases |s|
  {
    if s == "" then []
    else
      SlashFound(s);
      var i := SlashAt(s);
      [s[..i]] + Chop(s[i + 1..])
  }

  function CurStack(cur: string): seq<string>
    requires cur != "" && cur[0] == '/'
  {
    Chop(Slashed(cur)[|CurRoot(cur)|..])
  }

  /** The new directory name: the components of the operand walked from the root, or from the old name. */
  function Update(cur: string, dir: string): string
    requires cur != "" && cur[0] == '/'
  {
    if dir != "" && dir[0] == '/' then Show(RootOf(dir), Walk([], Tokens(dir)))
    else Show(CurRoot(cur), Walk(CurStack(cur), Tokens(dir)))
  }

  // ---------------------------------------------------------------- the buffer

  predicate SlashFree(stack: seq<string>) {
    forall i :: 0 <= i < |stack| ==> NoSlash(stack[i])
  }

  lemma {:induction false} TrailConcat(a: seq<string>, b: seq<string>)
    ensures Trail(a + b) == Trail(a) + Trail(b)
    decreases |b|
  {
    if b == [] {
      assert a + b == a;
      assert Trail(a) + "" == Trail(a);
    } else {
      var c := b[..|b| - 1];
      assert (a + b)[..|a + b| - 1] == a + c;
      TrailConcat(a, c);
      assert Trail(a + b) == Trail(a) + Trail(c) + b[|b| - 1] + "/";
    }
  }

  lemma SplitAt(s: string, i: nat)
    requires i < |s|
    ensures s == s[..i] + [s[i]] + s[i + 1..]
  {
  }

  lemma ChopStep(s: string)
    requires s != "" && s[|s| - 1] == '/'
    ensures
      var i := SlashAt(s);
      i < |s| && s == s[..i] + "/" + s[i + 1..] && Chop(s) == [s[..i]] + Chop(s[i + 1..]) && NoSlash(s[..i])
  {
    hide SlashAt, NoSlash;
    SlashFound(s);
    SplitAt(s, SlashAt(s));
  }

  lemma {:induction false} ChopTrail(s: string)
    requires s == "" || s[|s| - 1] == '/'
    ensures Trail(Chop(s)) == s && SlashFree(Chop(s))
    decreases |s|
  {
    hide SlashAt, Chop, NoSlash;
    if s == "" {
      ChopNothing();
    } else {
      ChopStep(s);
      var i := SlashAt(s);
      ChopTrail(s[i + 1..]);
      TrailConcat([s[..i]], Chop(s[i + 1..]));
      TrailOne(s[..i]);
    }
  }

  lemma ChopNothing()
    ensures Chop("") == []
  {
  }

  lemma TrailOne(c: string)
    ensures Trail([c]) == c + "/"
  {
    assert [c][..0] == [];
    assert Trail([c]) == Trail([]) + c + "/";
  }

  lemma {:induction false} TrailChop(stack: seq<string>)
    requires SlashFree(stack)
    ensures Trail(stack) == "" || Trail(stack)[|Trail(stack)| - 1] == '/'
    ensures Chop(Trail(stack)) == stack
    decreases |stack|
  {
    if stack != [] {
      var c, rest := stack[0], stack[1..];
      assert stack == [c] + rest;
      TrailConcat([c], rest);
      TrailOne(c);
      TrailChop(rest);
      var s := Trail(stack);
      assert s == c + "/" + Trail(rest);
      FirstSlash(c, Trail(rest));
      assert s[|c| + 1..] == Trail(rest) && s[..|c|] == c;
    }
  }

  lemma {:induction false} FirstSlash(c: string, rest: string)
    requires NoSlash(c)
    ensures SlashAt(c + "/" + rest) == |c|
    decreases |c|
  {
    if c != "" {
      assert (c + "/" + rest)[1..] == c[1..] + "/" + rest;
      FirstSlash(c[1..], rest);
    }
  }

  // ---------------------------------------------------------------- the loop

  lemma TokensFrom(s: string, i: nat, j: nat)
    requires i <= j <= |s| && forall k :: i <= k < j ==> s[k] == '/'
    ensures Tokens(s[i..]) == Tokens(s[j..])
    decreases j - i
  {
    if i < j {
      assert s[i..][1..] == s[i + 1..];
      TokensFrom(s, i + 1, j);
    }
  }

  lemma {:induction false} SlashIs(s: string, k: nat)
    requires k <= |s| && NoSlash(s[..k]) && (k < |s| ==> s[k] == '/')
    ensures SlashAt(s) == k
    decreases k
  {
    if k > 0 {
      assert s[0] == s[..k][0] && s[1..][..k - 1] == s[..k][1..];
      SlashIs(s[1..], k - 1);
    }
  }

  /** strtok: the next component at or after i, and the index behind it. */
  method Strtok(s: string, i: nat) returns (found: bool, p: string, next: nat)
    requires i <= |s|
    ensures i <= next <= |s| && (found ==> next > i)
    ensures if found then Tokens(s[i..]) == [p] + Tokens(s[next..]) && p != "" && NoSlash(p) else Tokens(s[i..]) == []
  {
    hide Tokens;
    var j := i;
    while j < |s| && s[j] == '/'
      invariant i <= j <= |s| && forall k :: i <= k < j ==> s[k] == '/'
    {
      j := j + 1;
    }
    TokensFrom(s, i, j);
    next := j;
    while next < |s| && s[next] != '/'
      invariant j <= next <= |s| && NoSlash(s[j..next])
    {
      next := next + 1;
    }
    p := s[j..next];
    found := p != "";
    TokenTaken(s, j, next);
  }

  lemma TokenTaken(s: string, j: nat, next: nat)
    requires j <= next <= |s| && NoSlash(s[j..next]) && (next < |s| ==> s[next] == '/') && (j == next ==> next == |s|)
    ensures Tokens(s[j..]) == if j == next then [] else [s[j..next]] + Tokens(s[next..])
  {
    hide NoSlash, SlashAt;
    if j < next {
      var t := s[j..];
      assert t[..next - j] == s[j..next] && t[next - j..] == s[next..];
      SlashIs(t, next - j);
      NoSlashFirst(s[j..next]);
      assert t[0] == s[j..next][0];
    }
  }

  lemma NoSlashFirst(c: string)
    requires NoSlash(c) && c != ""
    ensures c[0] != '/'
  {
  }

  lemma Cut(keep: string, c: string, k: nat)
    requires |keep| <= k <= |keep| + |c| + 1
    ensures
      var n := (keep + c + "/")[..k];
      if k == |keep| then n == keep else n[k - 1] == (c + "/")[k - 1 - |keep|]
  {
  }

  /** The characters of the last component, with its slash, are taken off the buffer. */
  method TakeOff(new0: string, lim: nat, ghost keep: string, ghost c: string) returns (n: string)
    requires new0 == keep + c + "/" && NoSlash(c) && lim <= |keep| && keep != "" && keep[|keep| - 1] == '/'
    ensures n == keep
  {
    n := new0;
    var last := false;
    Cut(keep, c, |new0|);
    while |n| > lim && !last
      invariant |keep| <= |n| <= |new0| && n == new0[..|n|]
      invariant |n| == |keep| ==> n == keep
      invariant |n| > |keep| ==> !last
      invariant last || |n| > |keep|
      decreases |n|, !last
    {
      n := n[..|n| - 1];
      Cut(keep, c, |n|);
      assert |n| > |keep| ==> n[|n| - 1] == c[|n| - 1 - |keep|] && c[|n| - 1 - |keep|] in c;
      last := n[|n| - 1] == '/';
    }
  }

  /** What one component does to the buffer. */
  method Component(new0: string, lim: nat, p: string, ghost root: string, ghost stack: seq<string>)
    returns (new': string)
    requires Buffer(new0, lim, root, stack) && NoSlash(p)
    ensures Buffer(new', lim, root, Enter(stack, p))
  {
    hide Trail;
    new' := new0;
    if p == ".." {
      if |new'| > lim {
        TrailSlash(root, stack);
        TrailSlash(root, stack[..|stack| - 1]);
        TrailLast(stack);
        ghost var keep := root + Trail(stack[..|stack| - 1]);
        assert new' == keep + stack[|stack| - 1] + "/";
        new' := TakeOff(new', lim, keep, stack[|stack| - 1]);
      } else {
        TrailSlash(root, stack);
      }
    } else if p != "." {
      new' := new' + p;
      new' := new' + "/";
      Pushed(root, stack, p);
    }
  }

  lemma TrailLast(stack: seq<string>)
    requires stack != []
    ensures Trail(stack) == Trail(stack[..|stack| - 1]) + stack[|stack| - 1] + "/"
  {
  }

  /** The buffer holds the root, of length lim, and the components so far. */
  ghost predicate Buffer(b: string, lim: nat, root: string, stack: seq<string>) {
    b == root + Trail(stack) && SlashFree(stack) && |root| == lim && lim > 0 && root[lim - 1] == '/'
  }

  lemma TrailSlash(root: string, stack: seq<string>)
    requires root != "" && root[|root| - 1] == '/'
    ensures
      var s := root + Trail(stack);
      |s| >= |root| && s[|s| - 1] == '/'
    ensures stack == [] <==> Trail(stack) == ""
  {
  }

  /** The old name with a slash, for a relative operand. */
  method StartRelative(curdir: string) returns (new': string, lim: nat)
    requires curdir != "" && curdir[0] == '/'
    ensures Buffer(new', lim, CurRoot(curdir), CurStack(curdir))
  {
    hide Trail, Chop;
    new', lim := curdir, 1;
    if new'[|new'| - 1] != '/' {
      new' := new' + "/";
    }
    if |new'| > lim && new'[lim] == '/' {
      lim := lim + 1;
    }
    ghost var s, root := Slashed(curdir), CurRoot(curdir);
    ChopTrail(s[|root|..]);
    assert s == root + s[|root|..];
  }

  method StartAbsolute(dir: string) returns (new': string, lim: nat, path: string)
    requires dir != "" && dir[0] == '/'
    ensures Buffer(new', lim, RootOf(dir), []) && Tokens(path) == Tokens(dir)
  {
    new', path, lim := "/", dir[1..], 1;
    if |dir| > 1 && dir[1] == '/' && (|dir| == 2 || dir[2] != '/') {
      new' := new' + "/";
      path := path[1..];
      lim := lim + 1;
    }
    TokensFrom(dir, 0, lim);
    assert dir[0..] == dir && path == dir[lim..];
    assert RootOf(dir) + Trail([]) == RootOf(dir);
  }

  method Updatepwd(curdir: string, dir: string) returns (r: string)
    requires curdir != "" && curdir[0] == '/'
    ensures r == Update(curdir, dir)
  {
    hide Trail, Chop, Tokens, CurRoot, CurStack, RootOf, Enter, Buffer, NoSlash;
    var new', lim, path := "", 1, dir;
    ghost var root, stack;
    if dir == "" || dir[0] != '/' {
      new', lim := StartRelative(curdir);
      root, stack := CurRoot(curdir), CurStack(curdir);
    } else {
      new', lim, path := StartAbsolute(dir);
      root, stack := RootOf(dir), [];
    }
    ghost var all := Walk(stack, Tokens(path));
    assert path[0..] == path;
    var more, p, i := Strtok(path, 0);
    ghost var rest := Tokens(path);
    while more
      invariant Buffer(new', lim, root, stack) && i <= |path|
      invariant if more then rest == [p] + Tokens(path[i..]) && NoSlash(p) else rest == []
      invariant all == Walk(stack, rest)
      decreases |path| - i, more
    {
      new' := Component(new', lim, p, root, stack);
      stack := Enter(stack, p);
      assert rest[1..] == Tokens(path[i..]);
      rest := Tokens(path[i..]);
      more, p, i := Strtok(path, i);
    }
    r := Finish(new', lim, root, stack);
  }

  /** The slash at the end is dropped. */
  method Finish(new0: string, lim: nat, ghost root: string, ghost stack: seq<string>) returns (r: string)
    requires Buffer(new0, lim, root, stack)
    ensures r == Show(root, stack)
  {
    TrailSlash(root, stack);
    r := new0;
    if |r| > lim {
      r := r[..|r| - 1];
    }
  }

  lemma Pushed(root: string, stack: seq<string>, p: string)
    ensures root + Trail(stack) + p + "/" == root + Trail(stack + [p])
  {
    assert (stack + [p])[..|stack|] == stack;
  }

  // ---------------------------------------------------------------- normal names

  predicate IsComponent(c: string) {
    c != "" && c != "." && c != ".." && NoSlash(c)
  }

  predicate NormalStack(stack: seq<string>) {
    forall i :: 0 <= i < |stack| ==> IsComponent(stack[i])
  }

  /** One or two slashes, then components without ".", ".." and empty ones, with single slashes between them. */
  ghost predicate NormalName(s: string) {
    exists root, stack :: NormalAs(s, root, stack)
  }

  predicate NormalAs(s: string, root: string, stack: seq<string>) {
    (root == "/" || root == "//") && NormalStack(stack) && s == Show(root, stack)
  }

  lemma {:induction false} TokensClean(s: string)
    ensures forall i :: 0 <= i < |Tokens(s)| ==> Tokens(s)[i] != "" && NoSlash(Tokens(s)[i])
    decreases |s|
  {
    if s != "" {
      if s[0] == '/' {
        TokensClean(s[1..]);
      } else {
        TokensClean(s[SlashAt(s)..]);
      }
    }
  }

  lemma {:induction false} WalkNormal(stack: seq<string>, ts: seq<string>)
    requires NormalStack(stack) && forall i :: 0 <= i < |ts| ==> ts[i] != "" && NoSlash(ts[i])
    ensures NormalStack(Walk(stack, ts))
    decreases |ts|
  {
    if ts != [] {
      WalkNormal(Enter(stack, ts[0]), ts[1..]);
    }
  }

  // ---------------------------------------------------------------- names taken apart

  /** What the old name is taken apart into: behind a single slash there is no empty component. */
  predicate Rooted(root: string, stack: seq<string>) {
    SlashFree(stack) && (root == "//" || (root == "/" && (stack != [] ==> stack[0] != "")))
  }

  predicate EmptyOnTop(stack: seq<string>) {
    stack != [] && stack[|stack| - 1] == ""
  }

  predicate Tokenized(ts: seq<string>) {
    forall i :: 0 <= i < |ts| ==> ts[i] != "" && NoSlash(ts[i])
  }

  lemma NormalRooted(root: string, stack: seq<string>)
    requires (root == "/" || root == "//") && NormalStack(stack)
    ensures Rooted(root, stack) && !EmptyOnTop(stack)
  {
  }

  lemma CurRooted(cur: string)
    requires cur != "" && cur[0] == '/'
    ensures Rooted(CurRoot(cur), CurStack(cur))
  {
    RootAndRest(cur);
    hide Chop, CurRoot, Slashed, SlashFree;
    var x := Slashed(cur)[|CurRoot(cur)|..];
    ChopTrail(x);
    if x == "" {
      ChopNothing();
    } else {
      ChopFirst(x);
    }
  }

  lemma RootAndRest(cur: string)
    requires cur != "" && cur[0] == '/'
    ensures
      var root, x := CurRoot(cur), Slashed(cur)[|CurRoot(cur)|..];
      && (root == "/" || root == "//") && (x == "" || x[|x| - 1] == '/')
      && (root == "/" && x != "" ==> x[0] != '/')
  {
  }

  lemma ChopFirst(s: string)
    requires s != "" && s[|s| - 1] == '/'
    ensures Chop(s) != [] && (s[0] != '/' ==> Chop(s)[0] != "")
  {
    hide Chop, SlashAt;
    ChopStep(s);
    if s[0] != '/' {
      SlashMoves(s);
    }
  }

  lemma {:induction false} WalkRooted(root: string, stack: seq<string>, ts: seq<string>)
    requires Rooted(root, stack) && Tokenized(ts)
    ensures Rooted(root, Walk(stack, ts))
    decreases |ts|
  {
    if ts != [] {
      WalkRooted(root, Enter(stack, ts[0]), ts[1..]);
    }
  }

  /** The first character behind the root. */
  lemma {:induction false} TrailFirst(stack: seq<string>)
    requires stack != [] && SlashFree(stack)
    ensures Trail(stack) != "" && (Trail(stack)[0] == '/' <==> stack[0] == "")
    decreases |stack|
  {
    var c := stack[|stack| - 1];
    var front := stack[..|stack| - 1];
    if front == [] {
      assert Trail(stack) == c + "/";
      assert c != "" ==> c[0] in c;
    } else {
      TrailFirst(front);
    }
  }

  /** The name of a directory ends with a slash only if it is a root or its last component is empty. */
  lemma ShowEnds(root: string, stack: seq<string>)
    requires SlashFree(stack) && stack != []
    ensures
      var s, front := Show(root, stack), stack[..|stack| - 1];
      s + "/" == root + Trail(stack) && s == root + Trail(front) + stack[|stack| - 1]
    ensures stack[|stack| - 1] != "" ==> var s := Show(root, stack); s != "" && s[|s| - 1] != '/'
  {
    hide Trail;
    TrailLast(stack);
    var c := stack[|stack| - 1];
    var front := root + Trail(stack[..|stack| - 1]);
    var t := Trail(stack);
    assert root + t == front + c + "/";
    assert t[..|t| - 1] == Trail(stack[..|stack| - 1]) + c;
    assert Show(root, stack) == front + c;
    assert c != "" ==> c[|c| - 1] in c;
  }

  /** The new name without its last empty component, which its slash at the end stands for. */
  function Topped(stack: seq<string>): seq<string> {
    if EmptyOnTop(stack) then stack[..|stack| - 1] else stack
  }

  /** A name that was put together is taken apart into the same root and components, but for an empty one on top. */
  lemma ShowParts(root: string, stack: seq<string>)
    requires Rooted(root, stack)
    ensures
      var s := Show(root, stack);
      s != "" && s[0] == '/' && CurRoot(s) == root && CurStack(s) == Topped(stack)
  {
    hide Trail, Chop, Show;
    var s, u := Show(root, stack), Topped(stack);
    TrailSlash(root, u);
    TrailChop(u);
    assert Slashed(s) == root + Trail(u) by {
      ShowSlashed(root, stack);
    }
    var t := root + Trail(u);
    if u != [] {
      TrailFirst(u);
      assert u[0] == stack[0];
      assert t[|root|] == Trail(u)[0];
    }
    assert s[0] == t[0];
    assert t[..|root|] == root && t[|root|..] == Trail(u);
  }

  lemma ShowSlashed(root: string, stack: seq<string>)
    requires Rooted(root, stack)
    ensures Show(root, stack) != "" && Slashed(Show(root, stack)) == root + Trail(Topped(stack))
  {
    hide Trail;
    TrailSlash(root, stack);
    TrailSlash(root, Topped(stack));
    if stack == [] {
      assert root + Trail(stack) == root;
    } else {
      ShowEnds(root, stack);
      if EmptyOnTop(stack) {
        assert root + Trail(Topped(stack)) + "" == root + Trail(Topped(stack));
      }
    }
  }

  /** A normal name is taken apart into the root and the components that it was made of. */
  lemma NormalParts(s: string, root: string, stack: seq<string>)
    requires NormalAs(s, root, stack)
    ensures s != "" && s[0] == '/' && CurRoot(s) == root && CurStack(s) == stack
  {
    hide Show, Trail;
    NormalRooted(root, stack);
    ShowParts(root, stack);
  }

  /** The new name is normal exactly if the components that it is made of are, or there is an empty one alone. */
  lemma ShowNormal(root: string, stack: seq<string>)
    requires Rooted(root, stack)
    ensures NormalName(Show(root, stack)) <==> NormalStack(stack) || stack == [""]
  {
    hide Trail, Show, Chop;
    var s := Show(root, stack);
    ShowParts(root, stack);
    if NormalStack(stack) {
      assert NormalAs(s, root, stack);
    }
    if stack == [""] {
      ShowEnds(root, stack);
      assert stack[..0] == [];
      TrailSlash(root, []);
      ShowRoot(root);
      assert root + Trail([]) + "" == root;
      assert NormalAs(s, root, []);
    }
    if NormalName(s) {
      var root', stack' :| NormalAs(s, root', stack');
      NormalParts(s, root', stack');
      NormalRooted(root', stack');
      if EmptyOnTop(stack) {
        SlashedOnce(root, stack, stack');
      }
    }
  }

  lemma ShowRoot(root: string)
    ensures Show(root, []) == root
  {
  }

  /** A normal name with a slash at its end is a root. */
  lemma SlashedOnce(root: string, stack: seq<string>, stack': seq<string>)
    requires Rooted(root, stack) && EmptyOnTop(stack)
    requires NormalAs(Show(root, stack), root, stack') && stack' == stack[..|stack| - 1]
    ensures stack == [""]
  {
    hide Trail, Show;
    ShowEnds(root, stack);
    if stack' != [] {
      ShowEnds(root, stack');
      TrailSlash(root, stack');
    }
  }

  // ---------------------------------------------------------------- what the operand leaves of the old name

  /** How many of k components are left under n further ones after walking along ts. */
  function Kept(k: nat, n: nat, ts: seq<string>): (r: nat)
    ensures r <= k
    decreases |ts|
  {
    if ts == [] then k
    else if ts[0] == "." then Kept(k, n, ts[1..])
    else if ts[0] == ".." then if n > 0 then Kept(k, n - 1, ts[1..]) else Kept(if k > 0 then k - 1 else 0, 0, ts[1..])
    else Kept(k, n + 1, ts[1..])
  }

  /** The components that ts leaves of n, and puts on top of them. */
  function Added(n: seq<string>, ts: seq<string>): seq<string>
    decreases |ts|
  {
    if ts == [] then n else Added(Enter(n, ts[0]), ts[1..])
  }

  /** A walk keeps the lower components of the old name, and puts components of the operand on top. */
  lemma {:induction false} WalkKeeps(stack: seq<string>, n: seq<string>, ts: seq<string>)
    requires Tokenized(ts) && NormalStack(n)
    ensures NormalStack(Added(n, ts))
    ensures Walk(stack + n, ts) == stack[..Kept(|stack|, |n|, ts)] + Added(n, ts)
    decreases |ts|
  {
    if ts == [] {
      assert stack[..|stack|] == stack;
    } else if ts[0] == ".." && n == [] {
      assert stack + n == stack;
      var below := if stack == [] then [] else stack[..|stack| - 1];
      WalkKeeps(below, [], ts[1..]);
      assert below + [] == below == Enter(stack, ts[0]);
      assert below[..Kept(|below|, 0, ts[1..])] == stack[..Kept(|below|, 0, ts[1..])];
    } else {
      WalkKeeps(stack, Enter(n, ts[0]), ts[1..]);
      assert Enter(stack + n, ts[0]) == stack + Enter(n, ts[0]);
    }
  }

  /** What is left of the components of the old name. */
  function Left(stack: seq<string>, dir: string): seq<string> {
    stack[..Kept(|stack|, 0, Tokens(dir))]
  }

  predicate TwoSlashes(s: string) {
    |s| > 1 && s[1] == '/'
  }

  /** With an absolute operand the new name is normal. With a relative one it is normal exactly if the components left
      of the old name are, or there is one empty component alone. */
  lemma UpdateNormal(cur: string, dir: string)
    requires cur != "" && cur[0] == '/'
    ensures dir != "" && dir[0] == '/' ==> NormalName(Update(cur, dir))
    ensures dir == "" || dir[0] != '/' ==>
              (NormalName(Update(cur, dir))
               <==> NormalStack(Left(CurStack(cur), dir)) || Walk(CurStack(cur), Tokens(dir)) == [""])
  {
    hide Tokens, Walk, Show, Kept, Added;
    TokensClean(dir);
    var ts := Tokens(dir);
    if dir != "" && dir[0] == '/' {
      WalkNormal([], ts);
      assert NormalAs(Update(cur, dir), RootOf(dir), Walk([], ts));
    } else {
      var stack := CurStack(cur);
      CurRooted(cur);
      WalkRooted(CurRoot(cur), stack, ts);
      ShowNormal(CurRoot(cur), Walk(stack, ts));
      WalkKeeps(stack, [], ts);
      assert stack + [] == stack;
      NormalBoth(Left(stack, dir), Added([], ts));
    }
  }

  lemma NormalBoth(a: seq<string>, b: seq<string>)
    ensures NormalStack(a + b) <==> NormalStack(a) && NormalStack(b)
  {
    assert NormalStack(a + b) ==> forall i :: 0 <= i < |a| ==> (a + b)[i] == a[i];
    assert forall i :: 0 <= i < |b| ==> (a + b)[|a| + i] == b[i];
  }

  /** The new name starts with two slashes exactly if what it starts from, the operand or the old name, does (with
      exactly two, if it is the operand). */
  lemma UpdateSlashes(cur: string, dir: string)
    requires cur != "" && cur[0] == '/'
    ensures TwoSlashes(Update(cur, dir))
            <==> if dir != "" && dir[0] == '/' then RootOf(dir) == "//" else TwoSlashes(cur)
  {
    hide Tokens, Walk, Show, Trail;
    TokensClean(dir);
    var ts := Tokens(dir);
    CurRooted(cur);
    if dir != "" && dir[0] == '/' {
      WalkRooted(RootOf(dir), [], ts);
      ShowSlashes(RootOf(dir), Walk([], ts));
    } else {
      WalkRooted(CurRoot(cur), CurStack(cur), ts);
      ShowSlashes(CurRoot(cur), Walk(CurStack(cur), ts));
    }
  }

  lemma ShowSlashes(root: string, stack: seq<string>)
    requires Rooted(root, stack)
    ensures TwoSlashes(Show(root, stack)) <==> root == "//"
  {
    hide Show, Chop;
    ShowParts(root, stack);
    var s := Show(root, stack);
    assert TwoSlashes(s) <==> TwoSlashes(Slashed(s));
  }

  lemma {:induction false} WalkConcat(stack: seq<string>, a: seq<string>, b: seq<string>)
    ensures Walk(stack, a + b) == Walk(Walk(stack, a), b)
    decreases |a|
  {
    if a == [] {
      assert a + b == b;
    } else {
      assert (a + b)[1..] == a[1..] + b;
      WalkConcat(Enter(stack, a[0]), a[1..], b);
    }
  }

  lemma {:induction false} TokensJoin(a: string, b: string)
    ensures Tokens(a + "/" + b) == Tokens(a) + Tokens(b)
    decreases |a|
  {
    hide SlashAt;
    var s := a + "/" + b;
    if a == "" {
      assert s[1..] == b;
    } else if a[0] == '/' {
      assert s[1..] == a[1..] + "/" + b;
      TokensJoin(a[1..], b);
    } else {
      var k := SlashAt(a);
      SlashMoves(a);
      JoinSlashAt(a, b);
      JoinSlices(a, b, k);
      TokensJoin(a[k..], b);
    }
  }

  lemma SlashMoves(a: string)
    requires a != "" && a[0] != '/'
    ensures SlashAt(a) > 0
  {
  }

  lemma JoinSlices(a: string, b: string, k: nat)
    requires k <= |a|
    ensures (a + "/" + b)[..k] == a[..k] && (a + "/" + b)[k..] == a[k..] + "/" + b
  {
  }

  lemma JoinSlashAt(a: string, b: string)
    ensures SlashAt(a + "/" + b) == SlashAt(a)
  {
    var k, s := SlashAt(a), a + "/" + b;
    assert s[..k] == a[..k];
    SlashIs(s, k);
  }

  lemma TokensAppend(x: string, c: string)
    requires (x == "" || x[|x| - 1] == '/') && c != "" && NoSlash(c)
    ensures Tokens(x + c + "/") == Tokens(x) + [c]
  {
    hide Tokens;
    TokensJoin(c, "");
    TokensWord(c);
    TokensNothing();
    assert c + "/" + "" == c + "/";
    assert Tokens(c + "/") == [c];
    if x == "" {
      assert x + c + "/" == c + "/";
    } else {
      var d := x[..|x| - 1];
      assert x + c + "/" == d + "/" + (c + "/");
      TokensJoin(d, c + "/");
      assert d + "/" + "" == x;
      TokensJoin(d, "");
    }
  }

  lemma TokensNothing()
    ensures Tokens("") == []
  {
  }

  /** Normal components are their own tokens. */
  lemma {:induction false} TokensTrail(stack: seq<string>)
    requires NormalStack(stack)
    ensures Tokens(Trail(stack)) == stack
    decreases |stack|
  {
    hide Tokens, Trail;
    TrailSlash("/", stack);
    if stack == [] {
      TokensNothing();
    } else {
      var front := stack[..|stack| - 1];
      TokensTrail(front);
      TrailLast(stack);
      TrailSlash("/", front);
      var x := Trail(front);
      assert x != "" ==> x[|x| - 1] == ("/" + x)[|x|];
      TokensAppend(x, stack[|stack| - 1]);
    }
  }

  lemma TokensWord(c: string)
    requires c != "" && NoSlash(c)
    ensures Tokens(c) == [c]
  {
    assert c[0] in c;
    assert c[..|c|] == c;
    SlashIs(c, |c|);
  }

  lemma {:induction false} WalkPlain(stack: seq<string>, ts: seq<string>)
    requires NormalStack(ts)
    ensures Walk(stack, ts) == stack + ts
    decreases |ts|
  {
    if ts != [] {
      WalkPlain(stack + [ts[0]], ts[1..]);
      assert stack + [ts[0]] + ts[1..] == stack + ts;
    } else {
      assert stack + ts == stack;
    }
  }

  /** A normal name stays as it is: updating is idempotent on absolute names. */
  lemma NormalFixed(cur: string, s: string)
    requires cur != "" && cur[0] == '/' && NormalName(s)
    ensures Update(cur, s) == s
  {
    hide Walk, Show, Trail;
    var root, stack :| NormalAs(s, root, stack);
    NormalParts(s, root, stack);
    NormalTokens(s, root, stack);
    WalkPlain([], stack);
    assert [] + stack == stack;
  }

  lemma NormalTokens(s: string, root: string, stack: seq<string>)
    requires NormalAs(s, root, stack)
    ensures Tokens(s) == stack && RootOf(s) == root
  {
    hide Tokens, Trail;
    NormalRooted(root, stack);
    if stack != [] {
      TrailFirst(stack);
      assert stack[0] != "";
    }
    TokensTrail(stack);
    TrailSlash(root, stack);
    var t := Trail(stack);
    TokensFrom(root + t, 0, |root|);
    assert (root + t)[0..] == root + t && (root + t)[|root|..] == t;
    if stack != [] {
      ShowEnds(root, stack);
      TokensJoin(s, "");
      TokensNothing();
      assert s + "/" + "" == root + t;
      assert |t| > 1 by {
        assert t[|t| - 1] == (root + t)[|root + t| - 1];
      }
      assert s[|root|] == t[0];
    } else {
      assert root + t == root;
    }
  }

  lemma Idempotent(cur: string, dir: string)
    requires cur != "" && cur[0] == '/' && dir != "" && dir[0] == '/'
    ensures Update(cur, Update(cur, dir)) == Update(cur, dir)
  {
    UpdateNormal(cur, dir);
    NormalFixed(cur, Update(cur, dir));
  }

  // ---------------------------------------------------------------- one change and two

  lemma {:induction false} KeptOfOneMore(k: nat, n: nat, ts: seq<string>)
    ensures Kept(k, n, ts) == if Kept(k + 1, n, ts) == 0 then 0 else Kept(k + 1, n, ts) - 1
    decreases |ts|
  {
    if ts != [] {
      if ts[0] == "." {
        KeptOfOneMore(k, n, ts[1..]);
      } else if ts[0] != ".." {
        KeptOfOneMore(k, n + 1, ts[1..]);
      } else if n > 0 {
        KeptOfOneMore(k, n - 1, ts[1..]);
      } else if k > 0 {
        KeptOfOneMore(k - 1, 0, ts[1..]);
      }
    }
  }

  /** Names that differ in one component are different, unless one is the root and the other the root with an empty
      component. */
  lemma ShowApart(root: string, low: seq<string>, c: string, high: seq<string>)
    ensures Show(root, low + [c] + high) == Show(root, low + high) <==> low + [c] + high == [""]
  {
    hide Trail;
    TrailConcat(low + [c], high);
    TrailConcat(low, [c]);
    TrailConcat(low, high);
    TrailOne(c);
    if low + high == [] {
      assert low + [c] + high == [c];
      TrailConcat([], []);
      assert (c + "/")[..|c|] == c;
    } else {
      TrailSlash("/", low + high);
      assert |low + [c] + high| > 1;
    }
  }

  /** Walking with and without a component on top. */
  lemma WalkApart(root: string, low: seq<string>, c: string, ts: seq<string>)
    requires Tokenized(ts)
    ensures Show(root, Walk(low + [c], ts)) == Show(root, Walk(low, ts))
            <==> Kept(|low| + 1, 0, ts) == 0 || Walk(low + [c], ts) == [""]
  {
    hide Walk, Show, Kept, Added, Tokenized;
    WalkOf(low + [c], ts);
    WalkOf(low, ts);
    KeptOfOneMore(|low|, 0, ts);
    LevelApart(root, low, c, Kept(|low| + 1, 0, ts), Added([], ts));
  }

  /** A walk that starts on top of a stack. */
  lemma WalkOf(stack: seq<string>, ts: seq<string>)
    requires Tokenized(ts)
    ensures Walk(stack, ts) == stack[..Kept(|stack|, 0, ts)] + Added([], ts)
  {
    assert stack + [] == stack && NormalStack([]);
    hide Walk, Kept, Added, Tokenized, NormalStack;
    WalkKeeps(stack, [], ts);
  }

  lemma LevelApart(root: string, low: seq<string>, c: string, k: nat, b: seq<string>)
    requires k <= |low| + 1
    ensures
      var x, y := (low + [c])[..k] + b, low[..if k == 0 then 0 else k - 1] + b;
      Show(root, x) == Show(root, y) <==> k == 0 || x == [""]
  {
    hide Show;
    if k > 0 {
      var last := (low + [c])[k - 1];
      assert (low + [c])[..k] == low[..k - 1] + [last];
      ShowApart(root, low[..k - 1], last, b);
    }
  }

  /** Behind an absolute a: a is not one of the two roots. Behind a relative a: there is no empty component of the old
      name on top, which the slash at the end of the new name would stand for; or b climbs over all that there is; or
      nothing but one empty component is left. */
  predicate Composable(cur: string, a: string, b: string)
    requires cur != "" && cur[0] == '/' && a != ""
  {
    if a[0] == '/' then a != "/" && a != "//"
    else
      var stack := Walk(CurStack(cur), Tokens(a));
      !EmptyOnTop(stack) || Kept(|stack|, 0, Tokens(b)) == 0 || Walk(stack, Tokens(b)) == [""]
  }

  /** Changing to a and then to a relative b is changing to a/b: exactly when Composable. */
  lemma Composes(cur: string, a: string, b: string)
    requires cur != "" && cur[0] == '/' && a != "" && (b == "" || b[0] != '/')
    ensures
      var c := Update(cur, a);
      c != "" && c[0] == '/' && (Update(c, b) == Update(cur, a + "/" + b) <==> Composable(cur, a, b))
  {
    hide Walk, Show, Tokens, RootOf, Kept, CurRoot, CurStack;
    TokensClean(a);
    TokensClean(b);
    TokensJoin(a, b);
    CurRooted(cur);
    var from, root := if a[0] == '/' then [] else CurStack(cur), if a[0] == '/' then RootOf(a) else CurRoot(cur);
    assert Rooted(root, from) by {
      RootIsRoot(a);
    }
    WalkConcat(from, Tokens(a), Tokens(b));
    WalkRooted(root, from, Tokens(a));
    var stack := Walk(from, Tokens(a));
    ShowParts(root, stack);
    if a[0] == '/' {
      WalkNormal([], Tokens(a));
      NormalRooted(root, stack);
      WalkNormal(stack, Tokens(b));
      RootJoined(a, b);
      RootIsRoot(a + "/" + b);
      NormalSame(root, RootOf(a + "/" + b), Walk(stack, Tokens(b)));
    } else if EmptyOnTop(stack) {
      var low := stack[..|stack| - 1];
      assert stack == low + [""];
      WalkApart(root, low, "", Tokens(b));
    }
  }

  lemma RootIsRoot(a: string)
    ensures RootOf(a) == "/" || RootOf(a) == "//"
  {
  }

  lemma NormalSame(root: string, root': string, stack: seq<string>)
    requires (root == "/" || root == "//") && (root' == "/" || root' == "//") && NormalStack(stack)
    ensures Show(root, stack) == Show(root', stack) <==> root == root'
  {
    hide Show;
    NormalRooted(root, stack);
    ShowParts(root, stack);
    NormalRooted(root', stack);
    ShowParts(root', stack);
  }

  /** An old name without empty components composes with every relative a. */
  lemma ComposesPlain(cur: string, a: string, b: string)
    requires cur != "" && cur[0] == '/' && a != "" && a[0] != '/' && "" !in CurStack(cur)
    ensures Composable(cur, a, b)
  {
    hide Tokens, Walk, Kept, Added;
    TokensClean(a);
    WalkKeeps(CurStack(cur), [], Tokens(a));
    assert CurStack(cur) + [] == CurStack(cur);
    var stack := Walk(CurStack(cur), Tokens(a));
    assert stack == Left(CurStack(cur), a) + Added([], Tokens(a));
  }

  lemma RootJoined(a: string, b: string)
    requires a != "" && a[0] == '/' && (b == "" || b[0] != '/')
    ensures RootOf(a + "/" + b) == RootOf(a) <==> a != "/" && a != "//"
  {
    var s := a + "/" + b;
    if |a| == 1 {
      assert a == "/";
      assert s[1] == '/' && (|s| == 2 || s[2] == b[0]);
    } else if |a| == 2 {
      assert s[2] == '/';
      assert a == [a[0], a[1]];
    } else {
      assert s[1] == a[1] && s[2] == a[2];
    }
  }

  // ---------------------------------------------------------------- old names that are not normal

  lemma Trail1(a: string)
    ensures Trail([a]) == a + "/"
  {
    TrailOne(a);
  }

  lemma Trail2(a: string, b: string)
    ensures Trail([a, b]) == a + "/" + b + "/"
  {
    assert [a, b][..1] == [a];
    TrailOne(a);
  }

  lemma Trail3(a: string, b: string, c: string)
    ensures Trail([a, b, c]) == a + "/" + b + "/" + c + "/"
  {
    assert [a, b, c][..2] == [a, b];
    Trail2(a, b);
  }

  /** The old name, written with its components. */
  lemma CurParts(cur: string, stack: seq<string>)
    requires SlashFree(stack) && cur != "" && cur[0] == '/' && (|cur| > 1 ==> cur[1] != '/')
    requires Slashed(cur) == "/" + Trail(stack)
    ensures CurRoot(cur) == "/" && CurStack(cur) == stack
  {
    hide Trail, Chop;
    TrailChop(stack);
    assert Slashed(cur)[1..] == Trail(stack);
  }

  /** An empty component that the operand leaves on top is lost, so that two changes and one differ. */
  lemma EmptyComponentLost()
    ensures Update("/a//b", "..") == "/a/"
    ensures Update("/a/", "x") == "/a/x" && Update("/a//b", "../x") == "/a//x"
  {
    hide Tokens, Chop, Trail;
    Trail3("a", "", "b");
    CurParts("/a//b", ["a", "", "b"]);
    TokensWord("..");
    Trail2("a", "");
    assert Walk(["a", "", "b"], [".."]) == ["a", ""];
    assert ("a" + "/" + "" + "/")[..2] == "a/";
    Trail1("a");
    CurParts("/a/", ["a"]);
    TokensWord("x");
    assert Walk(["a"], ["x"]) == ["a", "x"];
    Trail2("a", "x");
    assert ("a" + "/" + "x" + "/")[..3] == "a/x";
    TokensJoin("..", "x");
    assert ".." + "/" + "x" == "../x";
    assert Tokens("../x") == ["..", "x"];
    assert Walk(["a", "", "b"], ["..", "x"]) == Walk(["a", ""], ["x"]) == ["a", "", "x"];
    Trail3("a", "", "x");
    assert ("a" + "/" + "" + "/" + "x" + "/")[..4] == "a//x";
  }

  /** A component "." of the old name stays. */
  lemma DotStays()
    ensures Update("/a/./b", "x") == "/a/./b/x" && !NormalName("/a/./b/x")
  {
    hide Tokens, Chop, Trail, NormalName;
    Trail3("a", ".", "b");
    CurParts("/a/./b", ["a", ".", "b"]);
    TokensWord("x");
    var stack := ["a", ".", "b", "x"];
    assert Walk(["a", ".", "b"], ["x"]) == stack;
    TrailLast(stack);
    assert stack[..3] == ["a", ".", "b"];
    assert ("a" + "/" + "." + "/" + "b" + "/" + "x" + "/")[..7] == "a/./b/x";
    CurRooted("/a/./b");
    assert stack[1] == ".";
    assert SlashFree(stack);
    ShowNormal("/", stack);
  }
}
