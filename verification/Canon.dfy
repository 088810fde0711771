/** `cd -L`: paths made canonical as strings. */
module Canon {
  import opened Prelude

  const SLASH: byte := 0x2F
  const DOT: Text := [0x2E]
  const DOTDOT: Text := [0x2E, 0x2E]

  predicate Absolute(path: Text) { path != [] && path[0] == SLASH }

  // ----- components -----

  /** `split('/')` */
  function Split(t: Text): (r: seq<Text>)
    ensures r != []
  {
    if FirstIndex(t, SLASH) == |t| then [t] else [t[..FirstIndex(t, SLASH)]] + Split(t[FirstIndex(t, SLASH) + 1..])
  }

  lemma {:induction false} SplitConcat(a: Text, b: Text)
    ensures Split(a + [SLASH] + b) == Split(a) + Split(b)
    decreases |a|
  {
    var t, i := a + [SLASH] + b, FirstIndex(a, SLASH);
    FirstIndexIs(t, SLASH, i);
    assert t[..i] == a[..i];
    if i == |a| {
      assert t[i + 1..] == b && a[..i] == a;
    } else {
      assert t[i + 1..] == a[i + 1..] + [SLASH] + b;
      SplitConcat(a[i + 1..], b);
      Assoc([a[..i]], Split(a[i + 1..]), Split(b));
    }
  }

  /** A component a canonical path keeps. */
  predicate Proper(c: Text) { c != [] && c != DOT && c != DOTDOT && SLASH !in c }

  predicate AllProper(stack: seq<Text>) { forall i :: 0 <= i < |stack| ==> Proper(stack[i]) }

  // ----- what the loop computes -----

  function Walk1(stack: seq<Text>, c: Text, absolute: bool): seq<Text> {
    if c == [] || c == DOT then stack
    else if c == DOTDOT then
      if stack != [] && stack[|stack| - 1] != DOTDOT then stack[..|stack| - 1]
      else if !absolute then stack + [DOTDOT] else stack
    else stack + [c]
  }

  function Walk(stack: seq<Text>, comps: seq<Text>, absolute: bool): seq<Text>
    decreases |comps|
  {
    if comps == [] then stack else Walk(Walk1(stack, comps[0], absolute), comps[1..], absolute)
  }

  function Joined(stack: seq<Text>): Text {
    if stack == [] then [] else Joined(stack[..|stack| - 1]) + ([SLASH] + stack[|stack| - 1])
  }

  function Rendered(stack: seq<Text>): Text { if stack == [] then [SLASH] else Joined(stack) }

  /** `trim_end_matches('/')` */
  function Trimmed(t: Text): Text {
    if t != [] && t[|t| - 1] == SLASH then Trimmed(t[..|t| - 1]) else t
  }

  function Combined(path: Text, pwd: Text): Text {
    if Absolute(path) then path else if path == [] then pwd else Trimmed(pwd) + [SLASH] + path
  }

  function Canonical(path: Text, pwd: Text): Text {
    Rendered(Walk([], Split(Combined(path, pwd)), Absolute(Combined(path, pwd))))
  }

  method LexicalCanonicalize(path: Text, pwd: Text) returns (out: Text)
    ensures out == Canonical(path, pwd)
  {
    var combined := Combined(path, pwd);
    var comps, stack: seq<Text> := Split(combined), [];
    for k := 0 to |comps|
      invariant Walk(stack, comps[k..], Absolute(combined)) == Walk([], comps, Absolute(combined))
    {
      var comp := comps[k];
      assert comps[k..][0] == comp && comps[k..][1..] == comps[k + 1..];
      if comp == [] || comp == DOT { continue; }
      if comp == DOTDOT {
        if stack != [] && stack[|stack| - 1] != DOTDOT {
          stack := stack[..|stack| - 1];
        } else if !Absolute(combined) {
          stack := stack + [DOTDOT];
        }
      } else {
        stack := stack + [comp];
      }
    }
    if stack == [] { return [SLASH]; }
    out := [];
    for k := 0 to |stack|
      invariant out == Joined(stack[..k])
    {
      assert stack[..k + 1][..k] == stack[..k];
      out := out + ([SLASH] + stack[k]);
    }
    assert stack[..|stack|] == stack;
  }

  // ----- properties -----

  lemma {:induction false} WalkConcat(stack: seq<Text>, a: seq<Text>, b: seq<Text>, absolute: bool)
    ensures Walk(stack, a + b, absolute) == Walk(Walk(stack, a, absolute), b, absolute)
    decreases |a|
  {
    if a == [] {
      assert a + b == b;
    } else {
      ConcatHead(a, b);
      WalkConcat(Walk1(stack, a[0], absolute), a[1..], b, absolute);
    }
  }

  lemma {:induction false} SplitNoSlash(t: Text)
    ensures forall i :: 0 <= i < |Split(t)| ==> SLASH !in Split(t)[i]
  {
    if FirstIndex(t, SLASH) == |t| {
      assert t[..FirstIndex(t, SLASH)] == t;
    } else {
      SplitNoSlash(t[FirstIndex(t, SLASH) + 1..]);
    }
  }

  lemma {:induction false} WalkProper(stack: seq<Text>, comps: seq<Text>)
    requires AllProper(stack) && forall i :: 0 <= i < |comps| ==> SLASH !in comps[i]
    ensures AllProper(Walk(stack, comps, true))
    decreases |comps|
  {
    if comps != [] { WalkProper(Walk1(stack, comps[0], true), comps[1..]); }
  }

  lemma {:induction false} WalkKeeps(stack: seq<Text>, comps: seq<Text>)
    requires AllProper(comps)
    ensures Walk(stack, comps, true) == stack + comps
    decreases |comps|
  {
    if comps == [] {
      assert stack + comps == stack;
    } else {
      forall i | 0 <= i < |comps| - 1 ensures Proper(comps[1..][i]) { assert Proper(comps[i + 1]); }
      assert Proper(comps[0]);
      WalkKeeps(stack + [comps[0]], comps[1..]);
      Assoc(stack, [comps[0]], comps[1..]);
      assert [comps[0]] + comps[1..] == comps;
    }
  }

  lemma SplitProper(c: Text)
    requires Proper(c)
    ensures Split(c) == [c]
  {
    assert FirstIndex(c, SLASH) == |c|;
  }

  lemma {:induction false} SplitJoined(stack: seq<Text>)
    requires AllProper(stack)
    ensures Split(Joined(stack)) == [[]] + stack
  {
    if stack == [] {
      assert Split([]) == [[]];
    } else {
      var init, last := stack[..|stack| - 1], stack[|stack| - 1];
      assert Proper(last);
      SplitJoined(init);
      SplitConcat(Joined(init), last);
      Assoc(Joined(init), [SLASH], last);
      SplitProper(last);
      Assoc([[]], init, [last]);
      assert init + [last] == stack;
    }
  }

  /** The directory a string names, as its stack of components. */
  function Place(path: Text): seq<Text> { Walk([], Split(path), true) }

  lemma PlaceProper(path: Text)
    ensures AllProper(Place(path))
  {
    SplitNoSlash(path);
    WalkProper([], Split(path));
  }

  lemma PlaceOfRendered(stack: seq<Text>)
    requires AllProper(stack)
    ensures Place(Rendered(stack)) == stack && Absolute(Rendered(stack))
  {
    if stack == [] {
      SplitConcat([], []);
      assert [] + [SLASH] + [] == [SLASH];
      assert Walk([], [[], []], true) == Walk([], [[]], true);
    } else {
      SplitJoined(stack);
      WalkKeeps([], stack);
      WalkConcat([], [[]], stack, true);
      assert Walk([], [[]], true) == [];
      assert [] + stack == stack;
      JoinedAbsolute(stack);
    }
  }

  lemma {:induction false} JoinedAbsolute(stack: seq<Text>)
    requires stack != []
    ensures Absolute(Joined(stack))
  {
    if |stack| > 1 { JoinedAbsolute(stack[..|stack| - 1]); }
  }

  lemma {:induction false} TrimmedPlace(pwd: Text)
    ensures Place(Trimmed(pwd)) == Place(pwd)
    decreases |pwd|
  {
    if pwd != [] && pwd[|pwd| - 1] == SLASH {
      var init := pwd[..|pwd| - 1];
      TrimmedPlace(init);
      assert init + [SLASH] + [] == pwd;
      SplitConcat(init, []);
      WalkConcat([], Split(init), [[]], true);
    }
  }

  lemma {:induction false} TrimmedAbsolute(pwd: Text)
    requires Absolute(pwd)
    ensures Absolute(Trimmed(pwd)) || Trimmed(pwd) == []
    decreases |pwd|
  {
    if pwd[|pwd| - 1] == SLASH && |pwd| > 1 {
      TrimmedAbsolute(pwd[..|pwd| - 1]);
    }
  }

  /** Where a path leads from an absolute directory. */
  function Target(path: Text, pwd: Text): seq<Text> {
    if Absolute(path) then Place(path) else if path == [] then Place(pwd) else Walk(Place(pwd), Split(path), true)
  }

  lemma CanonicalIs(path: Text, pwd: Text)
    requires Absolute(pwd)
    ensures Canonical(path, pwd) == Rendered(Target(path, pwd)) && AllProper(Target(path, pwd))
  {
    var combined := Combined(path, pwd);
    PlaceProper(combined);
    if !Absolute(path) && path != [] {
      TrimmedAbsolute(pwd);
      SplitConcat(Trimmed(pwd), path);
      WalkConcat([], Split(Trimmed(pwd)), Split(path), true);
      TrimmedPlace(pwd);
    }
  }

  /** `is_acceptable_form`: absolute, with no dot or dot-dot component. */
  predicate AcceptableForm(path: Text) { Absolute(path) && DOT !in Split(path) && DOTDOT !in Split(path) }

  /** The result is absolute, and its components are neither empty nor dots. */
  lemma CanonicalForm(path: Text, pwd: Text)
    requires Absolute(pwd)
    ensures AcceptableForm(Canonical(path, pwd))
    ensures var comps := Split(Canonical(path, pwd));
            Canonical(path, pwd) == [SLASH] || (comps[0] == [] && AllProper(comps[1..]))
  {
    CanonicalIs(path, pwd);
    var stack := Target(path, pwd);
    PlaceOfRendered(stack);
    if stack == [] {
      SplitConcat([], []);
      assert [] + [SLASH] + [] == [SLASH];
    } else {
      SplitJoined(stack);
      assert ([[]] + stack)[1..] == stack;
    }
  }

  lemma Idempotent(path: Text, pwd: Text, other: Text)
    requires Absolute(pwd)
    ensures Canonical(Canonical(path, pwd), other) == Canonical(path, pwd)
  {
    CanonicalIs(path, pwd);
    PlaceOfRendered(Target(path, pwd));
  }

  /** Going to `q` and from there to `p` is going to `q/p`. */
  lemma Composes(p: Text, q: Text, pwd: Text)
    requires Absolute(pwd) && !Absolute(p) && q != []
    ensures Canonical(p, Canonical(q, pwd)) == Canonical(q + [SLASH] + p, pwd)
  {
    CanonicalIs(q, pwd);
    var stack := Target(q, pwd);
    PlaceOfRendered(stack);
    CanonicalIs(p, Rendered(stack));
    CanonicalIs(q + [SLASH] + p, pwd);
    SplitConcat(q, p);
    WalkConcat(if Absolute(q) then [] else Place(pwd), Split(q), Split(p), true);
    if p == [] { assert Walk(stack, [[]], true) == Walk(stack, [], true); }
  }

  // ----- what each component does -----

  lemma SplitStep(c: Text, d: Text)
    requires SLASH !in c && SLASH !in d
    ensures Split(c) == [c] && Split(c + [SLASH] + d) == [c, d]
  {
    SplitConcat(c, d);
    assert FirstIndex(c, SLASH) == |c| && FirstIndex(d, SLASH) == |d|;
  }

  lemma WalkTwo(stack: seq<Text>, c: Text, d: Text, absolute: bool)
    ensures Walk(stack, [c], absolute) == Walk1(stack, c, absolute)
    ensures Walk(stack, [c, d], absolute) == Walk1(Walk1(stack, c, absolute), d, absolute)
  {
    WalkOne(stack, c, absolute);
    WalkOne(Walk1(stack, c, absolute), d, absolute);
    assert [c, d][1..] == [d];
  }

  lemma WalkOne(stack: seq<Text>, c: Text, absolute: bool)
    ensures Walk(stack, [c], absolute) == Walk1(stack, c, absolute)
  {
    assert [c][1..] == [];
  }

  /** Into a directory and up again is where one was. */
  lemma DownAndUp(c: Text, pwd: Text)
    requires Absolute(pwd) && Proper(c)
    ensures Canonical(c + [SLASH] + DOTDOT, pwd) == Canonical([], pwd)
  {
    var path := c + [SLASH] + DOTDOT;
    assert path[0] == c[0] && c[0] in c;
    CanonicalIs(path, pwd);
    CanonicalIs([], pwd);
    SplitStep(c, DOTDOT);
    WalkTwo(Place(pwd), c, DOTDOT, true);
    assert (Place(pwd) + [c])[..|Place(pwd)|] == Place(pwd);
  }

  /** A directory's name behind the path of the directory it is in. */
  function Inside(dir: Text, c: Text): Text { (if dir == [SLASH] then dir else dir + [SLASH]) + c }

  lemma Down(c: Text, pwd: Text)
    requires Absolute(pwd) && Proper(c)
    ensures Canonical(c, pwd) == Inside(Canonical([], pwd), c)
  {
    assert c[0] in c;
    CanonicalIs(c, pwd);
    CanonicalIs([], pwd);
    SplitStep(c, DOTDOT);
    WalkTwo(Place(pwd), c, DOTDOT, true);
    RenderedInside(Place(pwd), c);
  }

  lemma RenderedInside(stack: seq<Text>, c: Text)
    requires AllProper(stack)
    ensures Rendered(stack + [c]) == Inside(Rendered(stack), c)
  {
    assert (stack + [c])[..|stack|] == stack;
    if stack != [] {
      var init, last := stack[..|stack| - 1], stack[|stack| - 1];
      assert Proper(last);
      assert Joined(stack) == Joined(init) + ([SLASH] + last);
      Assoc(Joined(stack), [SLASH], c);
    }
  }

  lemma EmptyTwice()
    ensures Split([SLASH]) == [[], []]
  {
    SplitConcat([], []);
    assert [] + [SLASH] + [] == [SLASH];
  }

  /** Nothing is above the root, and a dot is where one is. */
  lemma UpAndStay(pwd: Text)
    requires Absolute(pwd)
    ensures Canonical(DOTDOT, [SLASH]) == [SLASH] && Canonical(DOT, pwd) == Canonical([], pwd)
  {
    CanonicalIs(DOTDOT, [SLASH]);
    CanonicalIs(DOT, pwd);
    CanonicalIs([], pwd);
    SplitStep(DOTDOT, DOT);
    SplitStep(DOT, DOT);
    EmptyTwice();
    WalkTwo([], [], [], true);
    WalkTwo([], DOTDOT, DOT, true);
    WalkTwo(Place(pwd), DOT, DOT, true);
  }

  /** An absolute path is read from the root, whatever the directory is. */
  lemma FromRoot(p: Text, pwd: Text)
    requires Absolute(pwd)
    ensures Canonical([SLASH] + p, pwd) == Canonical([], [SLASH] + p)
    ensures !Absolute(p) && p != [] ==> Canonical([SLASH] + p, pwd) == Canonical(p, [SLASH])
  {
    CanonicalIs([SLASH] + p, pwd);
    CanonicalIs([], [SLASH] + p);
    if !Absolute(p) && p != [] {
      assert Trimmed([SLASH]) == [] by { assert [SLASH][..0] == []; }
      assert [] + [SLASH] + p == [SLASH] + p;
      CanonicalIs(p, [SLASH]);
    }
  }

  /** `..`, `../..` and so on. */
  function Ups(n: nat): Text { if n == 0 then DOTDOT else Ups(n - 1) + [SLASH] + DOTDOT }

  /** From a relative directory the leading `..` stay. */
  lemma UpsStay(n: nat)
    ensures Canonical([], Ups(n)) == [SLASH] + Ups(n)
  {
    var stack := UpsWalk(n);
    assert !Absolute(Ups(n)) by { UpsRelative(n); }
  }

  lemma {:induction false} UpsRelative(n: nat)
    ensures Ups(n) != [] && Ups(n)[0] == 0x2E
  {
    if n > 0 { UpsRelative(n - 1); }
  }

  lemma JoinedSnoc(stack: seq<Text>, c: Text)
    ensures Joined(stack + [c]) == Joined(stack) + ([SLASH] + c)
  {
    assert (stack + [c])[..|stack|] == stack;
  }

  lemma UpStep(before: Text, stack: seq<Text>)
    requires stack != [] && stack[|stack| - 1] == DOTDOT && stack == Walk([], Split(before), false)
    ensures Walk([], Split(before + [SLASH] + DOTDOT), false) == stack + [DOTDOT]
  {
    SplitStep(DOTDOT, DOTDOT);
    SplitConcat(before, DOTDOT);
    WalkConcat([], Split(before), [DOTDOT], false);
    WalkOne(stack, DOTDOT, false);
  }

  lemma {:induction false} UpsWalk(n: nat) returns (stack: seq<Text>)
    ensures stack == Walk([], Split(Ups(n)), false)
    ensures stack != [] && stack[|stack| - 1] == DOTDOT && Joined(stack) == [SLASH] + Ups(n)
  {
    if n == 0 {
      SplitStep(DOTDOT, DOTDOT);
      WalkOne([], DOTDOT, false);
      stack := [DOTDOT];
      assert [DOTDOT][..0] == [];
    } else {
      var init := UpsWalk(n - 1);
      UpStep(Ups(n - 1), init);
      JoinedSnoc(init, DOTDOT);
      Assoc([SLASH], Ups(n - 1), [SLASH] + DOTDOT);
      Assoc(Ups(n - 1), [SLASH], DOTDOT);
      stack := init + [DOTDOT];
    }
  }
}
