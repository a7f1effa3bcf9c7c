/** fs/fs.c: path names and their components. */
module Paths {
  import opened Disks
  import opened Entries
  import opened Options

  const SLASH: Byte := 47

  type Name = seq<Byte>

  /** A component: not empty and without a slash. */
  predicate Proper(c: Name) {
    c != [] && SLASH !in c
  }

  // ---------------------------------------------------------------- components

  function Flush(cur: Name): (r: seq<Name>) {
    if cur == [] then [] else [cur]
  }

  /** Cut p at its slashes, `cur` being the start of the first piece, and leave empty pieces out. */
  function Split(p: Name, cur: Name): seq<Name> {
    if p == [] then Flush(cur)
    else if p[0] == SLASH then Flush(cur) + Split(p[1..], [])
    else Split(p[1..], cur + [p[0]])
  }

  function Components(p: Name): seq<Name> {
    Split(p, [])
  }

  lemma {:induction false} SplitName(c: Name, p: Name, cur: Name)
    requires SLASH !in c
    ensures Split(c + p, cur) == Split(p, cur + c)
  {
    if c == [] {
      assert c + p == p && cur + c == cur;
    } else {
      assert (c + p)[1..] == c[1..] + p && cur + [c[0]] + c[1..] == cur + c;
      SplitName(c[1..], p, cur + [c[0]]);
    }
  }

  lemma SkipSlash(p: Name)
    requires p != [] && p[0] == SLASH
    ensures Components(p) == Components(p[1..])
  {
  }

  lemma {:induction false} SplitProper(p: Name, cur: Name)
    requires SLASH !in cur
    ensures forall c <- Split(p, cur) :: Proper(c)
    decreases p
  {
    if p != [] {
      SplitProper(p[1..], if p[0] == SLASH then [] else cur + [p[0]]);
    }
  }

  /** Every component is a proper name. */
  lemma ComponentsProper(p: Name)
    ensures forall c <- Components(p) :: Proper(c)
  {
    SplitProper(p, []);
  }

  lemma {:induction false} SplitBytes(p: Name, cur: Name)
    ensures forall c, b :: c in Split(p, cur) && b in c ==> b in p || b in cur
    decreases p
  {
    if p != [] {
      SplitBytes(p[1..], if p[0] == SLASH then [] else cur + [p[0]]);
    }
  }

  /** The bytes of a component are bytes of the path. */
  lemma ComponentBytes(p: Name, c: Name)
    requires c in Components(p)
    ensures forall b :: b in c ==> b in p
  {
    SplitBytes(p, []);
  }

  lemma {:induction false} SplitEnd(q: Name, c: Name, cur: Name)
    requires Proper(c)
    ensures Split(q + [SLASH] + c, cur) == Split(q, cur) + [c]
    decreases q
  {
    var p := q + [SLASH] + c;
    if q == [] {
      assert p[1..] == c;
      SplitName(c, [], []);
      assert c + [] == c && [] + c == c;
    } else {
      assert p[1..] == q[1..] + [SLASH] + c && p[0] == q[0];
      SplitEnd(q[1..], c, if q[0] == SLASH then [] else cur + [q[0]]);
    }
  }

  /** What stands behind the last slash is the last component. */
  lemma LastComponent(p: Name, k: nat)
    requires k < |p| && p[k] == SLASH && Proper(p[k + 1..])
    ensures Components(p) != [] && Components(p)[|Components(p)| - 1] == p[k + 1..]
  {
    assert p == p[..k] + [SLASH] + p[k + 1..];
    SplitEnd(p[..k], p[k + 1..], []);
  }

  // ---------------------------------------------------------------- printing

  /** A slash in front of every component, as strcat builds searched_path. */
  function Print(cs: seq<Name>): Name {
    if cs == [] then [] else Print(cs[..|cs| - 1]) + [SLASH] + cs[|cs| - 1]
  }

  lemma PrintSnoc(cs: seq<Name>, c: Name)
    ensures Print(cs + [c]) == Print(cs) + [SLASH] + c
  {
    assert (cs + [c])[..|cs|] == cs;
  }

  lemma {:induction false} PrintCons(c: Name, cs: seq<Name>)
    ensures Print([c] + cs) == [SLASH] + c + Print(cs)
  {
    if cs == [] {
      assert [c] + cs == [] + [c];
      PrintSnoc([], c);
    } else {
      var n := |cs| - 1;
      var init, last := cs[..n], cs[n];
      calc {
        Print([c] + cs);
        { assert [c] + cs == ([c] + init) + [last]; }
        Print(([c] + init) + [last]);
        { PrintSnoc([c] + init, last); }
        Print([c] + init) + [SLASH] + last;
        { PrintCons(c, init); }
        ([SLASH] + c + Print(init)) + [SLASH] + last;
        { Regroup(c, Print(init), last); }
        [SLASH] + c + (Print(init) + [SLASH] + last);
        { PrintSnoc(init, last); }
        [SLASH] + c + Print(init + [last]);
        { assert init + [last] == cs; }
        [SLASH] + c + Print(cs);
      }
    }
  }

  lemma Regroup(c: Name, a: Name, last: Name)
    ensures [SLASH] + c + a + [SLASH] + last == [SLASH] + c + (a + [SLASH] + last)
  {
  }

  lemma PrintHead(cs: seq<Name>)
    requires cs != []
    ensures Print(cs) != [] && Print(cs)[0] == SLASH && Print(cs) == [SLASH] + cs[0] + Print(cs[1..])
  {
    PrintCons(cs[0], cs[1..]);
    assert [cs[0]] + cs[1..] == cs;
  }

  /** A printed path parses back to the components it was printed from. */
  lemma {:induction false} ComponentsOfPrint(cs: seq<Name>)
    requires forall c <- cs :: Proper(c)
    ensures Components(Print(cs)) == cs
  {
    if cs != [] {
      var c, rest := cs[0], Print(cs[1..]);
      assert c in cs && Proper(c);
      PrintHead(cs);
      ComponentsOfPrint(cs[1..]);
      if cs[1..] != [] {
        PrintHead(cs[1..]);
      }
      FirstComponent(c, rest);
      assert [c] + cs[1..] == cs;
    }
  }

  lemma FirstComponent(c: Name, rest: Name)
    requires Proper(c) && (rest == [] || rest[0] == SLASH)
    ensures Components([SLASH] + c + rest) == [c] + Components(rest)
  {
    var p := [SLASH] + c + rest;
    assert p[1..] == c + rest;
    SkipSlash(p);
    SplitName(c, rest, []);
    assert [] + c == c;
  }

  // ---------------------------------------------------------------- path_parse

  /** What is left of a path: nothing if path_parse returned NULL. */
  function Rest(r: Option<Name>): Name {
    if r.Some? then r.value else []
  }

  /** path_parse takes the first component off, if there is one; otherwise it copies nothing. */
  method PathParse(p: Name) returns (rest: Option<Name>, name: Name)
    ensures name == [] ==> Components(p) == [] && rest.None?
    ensures name != [] ==> Proper(name) && Components(p) == [name] + Components(Rest(rest))
    ensures rest.Some? ==> rest.value != [] && rest.value[0] == SLASH
    ensures |name| + |Rest(rest)| + (if p != [] && p[0] == SLASH then 1 else 0) <= |p|
  {
    var i := 0;
    if p != [] && p[0] == SLASH {
      i := 1;
      SkipSlash(p);
      while i < |p| && p[i] == SLASH
        invariant 1 <= i <= |p| && Components(p) == Components(p[i..])
      {
        SkipSlash(p[i..]);
        assert p[i..][1..] == p[i + 1..];
        i := i + 1;
      }
    }
    ghost var start := i;
    assert p[i..] == p || i > 0;
    name := [];
    while i < |p| && p[i] != SLASH
      invariant start <= i <= |p| && name == p[start..i] && SLASH !in name
      invariant Components(p) == Split(p[i..], name)
    {
      assert p[i..][1..] == p[i + 1..] && p[i..][0] == p[i];
      name := name + [p[i]];
      i := i + 1;
    }
    if i == |p| {
      return None, name;
    }
    assert p[i..][0] == SLASH && Components(p[i..]) == [] + Split(p[i..][1..], []);
    rest := Some(p[i..]);
  }

  predicate Slashed(r: Option<Name>) {
    r.Some? ==> r.value != [] && r.value[0] == SLASH
  }

  /** The rest of a path, from its first component on. */
  function Todo(name: Name, rest: Option<Name>): seq<Name> {
    if name == [] then [] else [name] + Components(Rest(rest))
  }

  /** The bytes of a path that are still to be printed. */
  function Ahead(name: Name, rest: Option<Name>): nat {
    if name == [] then 0 else 1 + |name| + |Rest(rest)|
  }

  /** The next component of what is left, if anything is left; the buffer was cleared before. */
  method NextName(sub_path: Option<Name>) returns (rest: Option<Name>, name: Name)
    requires Slashed(sub_path)
    ensures Slashed(rest) && Todo(name, rest) == Components(Rest(sub_path)) && Ahead(name, rest) <= |Rest(sub_path)|
    ensures name != [] ==> sub_path.Some? && |Rest(rest)| < |Rest(sub_path)|
  {
    rest, name := sub_path, [];
    if sub_path.Some? {
      rest, name := PathParse(sub_path.value);
    }
  }

  /** No component has more than n bytes. */
  predicate Within(cs: seq<Name>, n: nat) {
    forall k :: 0 <= k < |cs| ==> |cs[k]| <= n
  }

  /** Where path_depth_cnt stands: depth components were counted, name is the next. */
  ghost predicate Counted(cs: seq<Name>, depth: nat, name: Name, rest: Option<Name>) {
    depth <= |cs| && Within(cs[..depth], MAX_NAME) && Todo(name, rest) == cs[depth..]
  }

  lemma CountOn(cs: seq<Name>, depth: nat, name: Name, rest: Option<Name>, name': Name, rest': Option<Name>)
    requires Counted(cs, depth, name, rest) && name != [] && |name| <= MAX_NAME
             && Todo(name', rest') == Components(Rest(rest))
    ensures Counted(cs, depth + 1, name', rest')
  {
    assert cs[depth..][0] == name && cs[depth..][1..] == cs[depth + 1..];
    assert ([name] + Components(Rest(rest)))[1..] == Components(Rest(rest));
    assert cs[..depth + 1] == cs[..depth] + [name];
  }

  lemma TooLong(cs: seq<Name>, depth: nat, name: Name, rest: Option<Name>)
    requires Counted(cs, depth, name, rest) && |name| > MAX_NAME
    ensures !Within(cs, MAX_NAME)
  {
    assert cs[depth..][0] == name;
  }

  lemma CountEnds(cs: seq<Name>, depth: nat, rest: Option<Name>)
    requires Counted(cs, depth, [], rest)
    ensures depth == |cs| && Within(cs, MAX_NAME)
  {
    assert |cs[depth..]| == 0;
    assert cs[..depth] == cs;
  }

  /** The loop of path_depth_cnt on a path with components. */
  method CountComponents(p: Name) returns (r: Option<nat>)
    ensures r.None? <==> !Within(Components(p), MAX_NAME)
    ensures r.Some? ==> r.value == |Components(p)|
  {
    ghost var cs := Components(p);
    var depth := 0;
    var rest, name := PathParse(p);
    assert cs[0..] == cs;
    while name != []
      invariant Counted(cs, depth, name, rest) && Slashed(rest)
      decreases |name| > 0, |Rest(rest)|
    {
      if |name| > MAX_NAME {
        TooLong(cs, depth, name, rest);
        return None;
      }
      var rest', name' := NextName(rest);
      CountOn(cs, depth, name, rest, name', rest');
      depth, rest, name := depth + 1, rest', name';
    }
    CountEnds(cs, depth, rest);
    r := Some(depth);
  }

  /** path_depth_cnt.  None: a component overruns its buffer of 16 bytes.  The buffer is not initialised: `garbage` is
      what is in name[0] before the first call, and counts if there is no component. */
  method PathDepthCnt(p: Name, garbage: Byte) returns (r: Option<nat>)
    ensures r.None? <==> !Within(Components(p), MAX_NAME)
    ensures r.Some? ==> r.value == |Components(p)| + (if Components(p) == [] && garbage != 0 then 1 else 0)
  {
    r := CountComponents(p);
    if r == Some(0) && garbage != 0 {
      r := Some(1);
    }
  }
}
