/** Copying a tree of JSON items. */
module Duplication {
  import opened Bytes
  import opened Sequences
  import opened ChildList

  /** Which nodes make up a tree, and how. */
  datatype Shape = Shape(node: Node, kids: seq<Shape>)

  /** What a tree says, whatever nodes it is made of. */
  datatype Tree = Tree(payload: Payload, key: Option<seq<byte>>, kids: seq<Tree>)

  ghost function Roots(ss: seq<Shape>): (r: seq<Node>)
    ensures |r| == |ss|
  {
    seq(|ss|, i requires 0 <= i < |ss| => ss[i].node)
  }

  ghost function Nodes(sh: Shape): set<Node>
    decreases sh
  {
    {sh.node} + NodesOf(sh.kids)
  }

  ghost function NodesOf(ss: seq<Shape>): (r: set<Node>)
    ensures forall i :: 0 <= i < |ss| ==> ss[i].node in r
    decreases ss
  {
    if ss == [] then {} else NodesOf(ss[..|ss| - 1]) + Nodes(ss[|ss| - 1])
  }

  /** The nodes below the roots. */
  ghost function Inner(ss: seq<Shape>): (r: set<Node>)
    ensures r <= NodesOf(ss)
    decreases ss
  {
    if ss == [] then {} else Inner(ss[..|ss| - 1]) + NodesOf(ss[|ss| - 1].kids)
  }

  /** The nodes are linked up as the shape says. The links of the root itself belong to its parent. */
  ghost predicate Built(sh: Shape)
    reads Nodes(sh)`child, Nodes(sh)`kids, NodesOf(sh.kids)`next, NodesOf(sh.kids)`prev
    decreases sh
  {
    && sh.node.kids == Roots(sh.kids) && sh.node.child == Nth(Roots(sh.kids), 0)
    && Row(sh.kids) && BuiltAll(sh.kids)
  }

  /** The roots are linked to each other. */
  ghost predicate Row(ss: seq<Shape>)
    reads Roots(ss)`next, Roots(ss)`prev
  {
    Forward(Roots(ss)) && Backward(Roots(ss))
  }

  ghost predicate BuiltAll(ss: seq<Shape>)
    reads NodesOf(ss)`child, NodesOf(ss)`kids, Inner(ss)`next, Inner(ss)`prev
    decreases ss
  {
    ss != [] ==> BuiltAll(ss[..|ss| - 1]) && Built(ss[|ss| - 1])
  }

  /** No node is used twice. */
  ghost predicate Separate(sh: Shape)
    decreases sh
  {
    sh.node !in NodesOf(sh.kids) && SeparateAll(sh.kids)
  }

  ghost predicate SeparateAll(ss: seq<Shape>)
    decreases ss
  {
    ss != [] ==>
      var init, last := ss[..|ss| - 1], ss[|ss| - 1];
      SeparateAll(init) && Separate(last) && NodesOf(init) !! Nodes(last)
  }

  ghost function Value(sh: Shape): Tree
    reads Nodes(sh)`payload, Nodes(sh)`key
    decreases sh
  {
    Tree(sh.node.payload, sh.node.key, Values(sh.kids))
  }

  ghost function Values(ss: seq<Shape>): seq<Tree>
    reads NodesOf(ss)`payload, NodesOf(ss)`key
    decreases ss
  {
    if ss == [] then [] else Values(ss[..|ss| - 1]) + [Value(ss[|ss| - 1])]
  }

  lemma InitOf(ss: seq<Shape>, sh: Shape)
    ensures (ss + [sh])[..|ss|] == ss && Roots(ss + [sh]) == Roots(ss) + [sh.node]
    ensures NodesOf(ss + [sh]) == NodesOf(ss) + Nodes(sh) && Values(ss + [sh]) == Values(ss) + [Value(sh)]
  {
  }

  lemma {:induction false} RootsOutside(ss: seq<Shape>, i: nat)
    requires SeparateAll(ss) && i < |ss|
    ensures ss[i].node !in Inner(ss)
    decreases ss
  {
    var init, last := ss[..|ss| - 1], ss[|ss| - 1];
    if i < |ss| - 1 {
      RootsOutside(init, i);
      assert ss[i] == init[i] && init[i].node in NodesOf(init);
    }
  }

  lemma AppendedRow(ss: seq<Shape>, sh: Shape, s: seq<Node>)
    requires s == Roots(ss) && sh.node !in s && sh.node.prev == Nth(s, |s| - 1) && sh.node.next == null
    requires forall i {:trigger s[i].next} :: 0 <= i < |s| ==>
      s[i].next == if i == |s| - 1 then sh.node else Nth(s, i + 1)
    requires Backward(s)
    ensures Row(ss + [sh])
  {
    InitOf(ss, sh);
    InsertedAtEnd(s, sh.node);
    Relinked(s, |s|, sh.node);
    hide Inserted;
  }

  /** The copies of the first children, linked to each other. */
  ghost predicate Copied(ss: seq<Shape>)
    reads NodesOf(ss)`child, NodesOf(ss)`kids, NodesOf(ss)`next, NodesOf(ss)`prev
  {
    Row(ss) && BuiltAll(ss) && SeparateAll(ss)
  }

  /** One more copy, crosswired with the one before it. */
  method Crosswire(last: Node?, copy: Node, ghost ss: seq<Shape>, ghost sh: Shape)
    requires Copied(ss) && Built(sh) && Separate(sh) && NodesOf(ss) !! Nodes(sh)
    requires sh.node == copy && Loose(copy) && last == Nth(Roots(ss), |ss| - 1)
    modifies copy`prev, Roots(ss)`next
    ensures Copied(ss + [sh])
  {
    InitOf(ss, sh);
    ghost var s := Roots(ss);
    if last != null {
      RootsOutside(ss, |ss| - 1);
      last.next := copy;
      copy.prev := last;
    }
    assert BuiltAll(ss) && Built(sh);
    AppendedRow(ss, sh, s);
    hide Built, Row, Separate;
  }

  lemma {:induction false} KidIsBuilt(ss: seq<Shape>, k: nat)
    requires BuiltAll(ss) && k < |ss|
    ensures Built(ss[k])
    decreases ss
  {
    if k < |ss| - 1 {
      KidIsBuilt(ss[..|ss| - 1], k);
    }
  }

  lemma {:induction false} NodesExist(sh: Shape)
    ensures forall n :: n in Nodes(sh) ==> allocated(n)
    decreases sh, 1
  {
    AllNodesExist(sh.kids);
  }

  lemma {:induction false} AllNodesExist(ss: seq<Shape>)
    ensures forall n :: n in NodesOf(ss) ==> allocated(n)
    decreases ss, 0
  {
    if ss != [] {
      AllNodesExist(ss[..|ss| - 1]);
      NodesExist(ss[|ss| - 1]);
    }
  }

  lemma NothingCopied()
    ensures Copied([]) && NodesOf([]) == {} && Values([]) == []
  {
  }

  /** What duplication needs to know about the original, which it does not touch. */
  ghost predicate Original(ss: seq<Shape>, vs: seq<Tree>)
    reads NodesOf(ss)
  {
    BuiltAll(ss) && Forward(Roots(ss)) && Values(ss) == vs
  }

  /** `cJSON_Duplicate` with recursion: the same tree, in nodes that did not exist before. */
  method Duplicate(item: Node, ghost sh: Shape) returns (copy: Node, ghost cs: Shape)
    requires sh.node == item && Built(sh)
    ensures cs.node == copy && Built(cs) && Separate(cs) && Value(cs) == Value(sh) && Loose(copy)
    ensures fresh(copy) && fresh(Nodes(cs))
    decreases sh, 1
  {
    ghost var ss, vs := sh.kids, Values(sh.kids);
    AllNodesExist(ss);
    ValuesSize(ss);
    assert Original(ss, vs);
    hide Separate, Built, Original, NodesOf, Copied;
    copy := new Node(item.payload, item.key);
    ghost var done := CopyChildren(copy, item.child, ss, vs);
    Adopt(copy, done);
    OriginalValue(ss, vs);
    cs := Shape(copy, done);
  }

  lemma OriginalValue(ss: seq<Shape>, vs: seq<Tree>)
    requires Original(ss, vs)
    ensures Values(ss) == vs
  {
  }

  /** The copy is complete once its children are its own. */
  ghost method Adopt(copy: Node, done: seq<Shape>)
    requires Copied(done) && copy !in NodesOf(done) && copy.child == Nth(Roots(done), 0)
    modifies copy`kids
    ensures Built(Shape(copy, done)) && Separate(Shape(copy, done))
    ensures Value(Shape(copy, done)) == Tree(copy.payload, copy.key, old(Values(done)))
    ensures Nodes(Shape(copy, done)) == NodesOf(done) + {copy}
  {
    AllNodesExist(done);
    hide SeparateAll, BuiltAll, Row, NodesOf, Values;
    copy.kids := Roots(done);
    assert BuiltAll(done);
  }

  /** The loop over the children. */
  method CopyChildren(
    copy: Node, first: Node?, ghost ss: seq<Shape>, ghost vs: seq<Tree>) returns (ghost done: seq<Shape>)
    requires Original(ss, vs) && |vs| == |ss| && first == Nth(Roots(ss), 0)
    requires copy.child == null && copy !in NodesOf(ss)
    modifies copy`child
    ensures Original(ss, vs) && Copied(done) && Values(done) == vs && copy.child == Nth(Roots(done), 0)
    ensures fresh(NodesOf(done))
    decreases ss, 3
  {
    AllNodesExist(ss);
    NothingCopied();
    hide Original, NodesOf, Copied, Values;
    done := [];
    var child, last: Node? := first, null;
    while child != null
      invariant |done| <= |ss| && child == Nth(Roots(ss), |done|) && last == Nth(Roots(done), |done| - 1)
      invariant Original(ss, vs) && Copied(done) && Values(done) == vs[..|done|]
      invariant fresh(NodesOf(done)) && copy.child == Nth(Roots(done), 0)
      decreases |ss| - |done|
    {
      var twin;
      ghost var ts;
      twin, ts := CopyChild(child, last, done, ss, vs);
      if last == null {
        copy.child := twin;
      }
      NextRoot(ss, vs, |done|);
      done := done + [ts];
      last := twin;
      child := child.next;
    }
  }

  /** One turn of the loop. */
  method CopyChild(child: Node, last: Node?, ghost done: seq<Shape>, ghost ss: seq<Shape>, ghost vs: seq<Tree>)
    returns (twin: Node, ghost ts: Shape)
    requires Original(ss, vs) && |done| < |ss| && child == ss[|done|].node
    requires Copied(done) && last == Nth(Roots(done), |done| - 1) && NodesOf(done) !! NodesOf(ss)
    requires |vs| == |ss| && Values(done) == vs[..|done|]
    modifies Roots(done)`next
    ensures ts.node == twin && Copied(done + [ts]) && fresh(twin) && fresh(Nodes(ts))
    ensures NodesOf(done + [ts]) == NodesOf(done) + Nodes(ts)
    ensures Original(ss, vs) && Values(done + [ts]) == vs[..|done| + 1]
    ensures Roots(done + [ts]) == Roots(done) + [twin]
    decreases ss, 2
  {
    AllNodesExist(done);
    AllNodesExist(ss);
    hide Separate, SeparateAll, Built, Copied, Value, Values, Nodes, NodesOf, Original;
    twin, ts := Twin(child, ss, vs, |done|);
    assert Copied(done) && Values(done) == vs[..|done|];
    NodesExist(ts);
    Crosswire(last, twin, done, ts);
    InitOf(done, ts);
    assert Value(ts) == vs[|done|] && Values(done) == vs[..|done|];
  }

  /** The copy of one child. */
  method Twin(
    child: Node, ghost ss: seq<Shape>, ghost vs: seq<Tree>, ghost k: nat) returns (twin: Node, ghost ts: Shape)
    requires Original(ss, vs) && k < |ss| == |vs| && child == ss[k].node
    ensures ts.node == twin && Built(ts) && Separate(ts) && Value(ts) == vs[k] && Loose(twin)
    ensures fresh(twin) && fresh(Nodes(ts)) && Original(ss, vs)
    decreases ss, 1
  {
    AllNodesExist(ss);
    NodesExist(ss[k]);
    KidIsBuilt(ss, k);
    KidValue(ss, k);
    hide Separate, Built, Value, Original, Nodes, NodesOf;
    twin, ts := Duplicate(child, ss[k]);
  }

  lemma NextRoot(ss: seq<Shape>, vs: seq<Tree>, k: nat)
    requires Original(ss, vs) && k < |ss|
    ensures ss[k].node.next == Nth(Roots(ss), k + 1)
  {
    assert Roots(ss)[k].next == Nth(Roots(ss), k + 1);
  }

  lemma ValuesSize(ss: seq<Shape>)
    ensures |Values(ss)| == |ss|
  {
    if ss != [] {
      KidValue(ss, 0);
    }
  }

  lemma {:induction false} KidValue(ss: seq<Shape>, k: nat)
    requires k < |ss|
    ensures |Values(ss)| == |ss| && Values(ss)[k] == Value(ss[k])
    decreases ss
  {
    if k < |ss| - 1 {
      KidValue(ss[..|ss| - 1], k);
    } else if k > 0 {
      KidValue(ss[..k], 0);
    }
  }
}
