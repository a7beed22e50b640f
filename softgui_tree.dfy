// The `parent` back-references of SoftGUI widgets and the walk
// `Widget::mark_dirty` makes up them.
//
// Widgets are numbered by their position in the window's widget store, and
// `parent[h]` is the handle of the frame `h` was last added to, or `None`
// (`nullptr`).  `mark_dirty` recurses up this chain, so it returns only when
// the chain reaches a widget without a parent: `Acyclic` says that it does
// from every widget.

module SoftGuiTree {
  import opened Common

  type Parents = seq<Option<nat>>

  /** Every parent is a widget of the store. */
  ghost predicate Linked(parent: Parents)
  {
    forall i :: 0 <= i < |parent| && parent[i].Some? ==> parent[i].value < |parent|
  }

  /** The chain from `h` reaches a widget without a parent in at most `n` steps. */
  ghost predicate Climbs(parent: Parents, h: nat, n: nat)
    decreases n
  {
    h < |parent| && (parent[h].None? || (n > 0 && Climbs(parent, parent[h].value, n - 1)))
  }

  ghost predicate Rooted(parent: Parents, h: nat)
  {
    exists n :: Climbs(parent, h, n)
  }

  /** `mark_dirty` returns from every widget. */
  ghost predicate Acyclic(parent: Parents)
  {
    forall h :: 0 <= h < |parent| ==> Rooted(parent, h)
  }

  /** `a` is `h` or one of its ancestors at most `n` steps up. */
  ghost predicate Above(parent: Parents, a: nat, h: nat, n: nat)
    decreases n
  {
    a == h || (n > 0 && h < |parent| && parent[h].Some? && Above(parent, a, parent[h].value, n - 1))
  }

  /** The widgets `mark_dirty` visits from `h`, in order, when the chain is at most `n` steps long. */
  ghost function Path(parent: Parents, h: nat, n: nat): (p: seq<nat>)
    requires Climbs(parent, h, n)
    ensures |p| >= 1 && p[0] == h
    ensures forall i :: 0 <= i < |p| ==> p[i] < |parent|
    ensures forall i :: 0 <= i < |p| - 1 ==> parent[p[i]] == Some(p[i + 1])
    ensures parent[p[|p| - 1]].None?
    decreases n
  {
    if parent[h].None? then [h] else [h] + Path(parent, parent[h].value, n - 1)
  }

  /** The widget `h` and all its ancestors, from `h` up to the top. */
  ghost function Lineage(parent: Parents, h: nat): (p: seq<nat>)
    requires Rooted(parent, h)
    ensures |p| >= 1 && p[0] == h
    ensures forall i :: 0 <= i < |p| ==> p[i] < |parent|
    ensures forall i :: 0 <= i < |p| - 1 ==> parent[p[i]] == Some(p[i + 1])
    ensures parent[p[|p| - 1]].None?
  {
    var n: nat :| Climbs(parent, h, n);
    Path(parent, h, n)
  }

  /** A widget's lineage is itself followed by its parent's lineage. */
  lemma {:induction false} LineageStep(parent: Parents, h: nat)
    requires Rooted(parent, h) && h < |parent| && parent[h].Some?
    ensures Rooted(parent, parent[h].value)
    ensures Lineage(parent, h) == [h] + Lineage(parent, parent[h].value)
  {
    var p := Lineage(parent, h);
    var n: nat :| Climbs(parent, h, n);
    assert Climbs(parent, parent[h].value, n - 1);
    var q := Lineage(parent, parent[h].value);
    LineageUnique(parent, p[1..], q);
  }

  /** Two parent walks from the same widget that both end at the top are the same walk. */
  lemma {:induction false} LineageUnique(parent: Parents, p: seq<nat>, q: seq<nat>)
    requires |p| >= 1 && |q| >= 1 && p[0] == q[0]
    requires forall i :: 0 <= i < |p| ==> p[i] < |parent|
    requires forall i :: 0 <= i < |q| ==> q[i] < |parent|
    requires forall i :: 0 <= i < |p| - 1 ==> parent[p[i]] == Some(p[i + 1])
    requires forall i :: 0 <= i < |q| - 1 ==> parent[q[i]] == Some(q[i + 1])
    requires parent[p[|p| - 1]].None? && parent[q[|q| - 1]].None?
    ensures p == q
    decreases |p|
  {
    assert |p| > 1 ==> parent[p[0]] == Some(p[1]);
    assert |q| > 1 ==> parent[q[0]] == Some(q[1]);
    assert |p| > 1 <==> |q| > 1;
    if |p| > 1 {
      LineageUnique(parent, p[1..], q[1..]);
      assert p == [p[0]] + p[1..];
      assert q == [q[0]] + q[1..];
    }
  }

  /** Cutting a widget loose (`parent = nullptr`) keeps every chain at most as long. */
  lemma {:induction false} ClimbsAfterCut(parent: Parents, w: nat, h: nat, n: nat)
    requires w < |parent| && Climbs(parent, h, n)
    ensures Climbs(parent[w := None], h, n)
    decreases n
  {
    if h != w && parent[h].Some? {
      ClimbsAfterCut(parent, w, parent[h].value, n - 1);
    }
  }

  /** `pack` and `place` keep the chains acyclic. */
  lemma {:induction false} CutKeepsAcyclic(parent: Parents, w: nat)
    requires Linked(parent) && Acyclic(parent) && w < |parent|
    ensures Linked(parent[w := None]) && Acyclic(parent[w := None])
  {
    var cut := parent[w := None];
    forall h: nat | h < |parent|
      ensures Rooted(cut, h)
    {
      assert Rooted(parent, h);
      var n: nat :| Climbs(parent, h, n);
      ClimbsAfterCut(parent, w, h, n);
    }
  }

  /** A chain that does not pass through `child` is the same after `child` is given a new parent. */
  lemma {:induction false} ClimbsAvoiding(parent: Parents, child: nat, frame: nat, h: nat, n: nat)
    requires child < |parent| && Climbs(parent, h, n)
    requires forall k :: !Above(parent, child, h, k)
    ensures Climbs(parent[child := Some(frame)], h, n)
    decreases n
  {
    assert !Above(parent, child, h, 0);
    if parent[h].Some? {
      forall k: nat
        ensures !Above(parent, child, parent[h].value, k)
      {
        assert !Above(parent, child, h, k + 1);
      }
      ClimbsAvoiding(parent, child, frame, parent[h].value, n - 1);
    }
  }

  /** After `child` is linked under `frame`, every widget that was rooted still is. */
  lemma {:induction false} RootedAfterLink(parent: Parents, child: nat, frame: nat, h: nat, n: nat)
    requires child < |parent| && frame < |parent| && Climbs(parent, h, n) && Rooted(parent, frame)
    requires forall k :: !Above(parent, child, frame, k)
    ensures Rooted(parent[child := Some(frame)], h)
    decreases n
  {
    var linked := parent[child := Some(frame)];
    if h == child {
      var m: nat :| Climbs(parent, frame, m);
      ClimbsAvoiding(parent, child, frame, frame, m);
      assert Climbs(linked, h, m + 1);
    } else if parent[h].Some? {
      RootedAfterLink(parent, child, frame, parent[h].value, n - 1);
      var m: nat :| Climbs(linked, parent[h].value, m);
      assert Climbs(linked, h, m + 1);
    } else {
      assert Climbs(linked, h, 0);
    }
  }

  /**
   * `Frame::add_child` keeps the chains acyclic as long as the child is not
   * the frame itself or one of its ancestors (otherwise `mark_dirty` from
   * the frame would never return).
   */
  lemma {:induction false} LinkKeepsAcyclic(parent: Parents, child: nat, frame: nat)
    requires Linked(parent) && Acyclic(parent) && child < |parent| && frame < |parent|
    requires forall k :: !Above(parent, child, frame, k)
    ensures Linked(parent[child := Some(frame)]) && Acyclic(parent[child := Some(frame)])
  {
    var linked := parent[child := Some(frame)];
    forall h: nat | h < |parent|
      ensures Rooted(linked, h)
    {
      assert Rooted(parent, h);
      var n: nat :| Climbs(parent, h, n);
      RootedAfterLink(parent, child, frame, h, n);
    }
  }

  /** Adding a widget without a parent keeps the chains acyclic, and its lineage is itself. */
  lemma {:induction false} AppendKeepsAcyclic(parent: Parents)
    requires Linked(parent) && Acyclic(parent)
    ensures Linked(parent + [None]) && Acyclic(parent + [None])
    ensures Lineage(parent + [None], |parent|) == [|parent|]
  {
    var grown := parent + [None];
    forall h: nat | h < |grown|
      ensures Rooted(grown, h)
    {
      if h < |parent| {
        assert Rooted(parent, h);
        var n: nat :| Climbs(parent, h, n);
        ClimbsAfterAppend(parent, h, n);
      } else {
        assert Climbs(grown, h, 0);
      }
    }
  }

  lemma {:induction false} ClimbsAfterAppend(parent: Parents, h: nat, n: nat)
    requires Climbs(parent, h, n)
    ensures Climbs(parent + [None], h, n)
    decreases n
  {
    if parent[h].Some? {
      ClimbsAfterAppend(parent, parent[h].value, n - 1);
    }
  }
}
