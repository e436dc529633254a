/** The tree that getHierarchy returns. */
module AssetHierarchy {
  import opened Options
  import opened Counting
  import opened AssetForest

  /** The table in some row order: its ids without repetition, and their rows. */
  datatype Table = Table(ids: seq<Id>, rows: Rows)

  ghost predicate Valid(f: Table) {
    && (forall id :: id in f.ids <==> id in f.rows)
    && (forall i, j :: 0 <= i < j < |f.ids| ==> f.ids[i] != f.ids[j])
  }

  datatype Tree = Node(id: Id, children: seq<Tree>)

  function IsVisibleChild(rows: Rows, user: User, x: Id): Id -> bool {
    (c: Id) => c in rows && rows[c].parent == Some(x) && Visible(user, rows[c])
  }

  function Children(f: Table, user: User, x: Id): seq<Id> {
    Filter(f.ids, IsVisibleChild(f.rows, user, x))
  }

  function BuildHierarchy(f: Table, user: User, x: Id, maxDepth: int, depth: int): Tree
    decreases maxDepth - depth, 1, 0
  {
    Node(x, if depth < maxDepth then BuildEach(f, user, Children(f, user, x), maxDepth, depth + 1) else [])
  }

  function BuildEach(f: Table, user: User, ids: seq<Id>, maxDepth: int, depth: int): seq<Tree>
    decreases maxDepth - depth, 2, |ids|
  {
    if ids == [] then [] else
    [BuildHierarchy(f, user, ids[0], maxDepth, depth)] + BuildEach(f, user, ids[1..], maxDepth, depth)
  }

  function GetHierarchy(f: Table, user: User, id: Id, maxDepth: int): Result<Tree> {
    var _ :- FindOne(f.rows, id, user);
    Ok(BuildHierarchy(f, user, id, maxDepth, 0))
  }

  // ---- What is in the tree ---------------------------------------------------------

  /** How many nodes of the tree carry x at depth k. */
  function Occurrences(t: Tree, x: Id, k: nat): nat {
    if k == 0 then (if t.id == x then 1 else 0) else OccurrencesIn(t.children, x, k - 1)
  }

  function OccurrencesIn(ts: seq<Tree>, x: Id, k: nat): nat {
    if ts == [] then 0 else Occurrences(ts[0], x, k) + OccurrencesIn(ts[1..], x, k)
  }

  /** x is k steps below root, and every step leads to an asset the user sees. */
  predicate Below(rows: Rows, user: User, root: Id, x: Id, k: nat)
    decreases k
  {
    if k == 0 then x == root else
    x in rows && Visible(user, rows[x]) && rows[x].parent.Some? && Below(rows, user, root, rows[x].parent.value, k - 1)
  }

  function BelowAt(rows: Rows, user: User, x: Id, k: nat): Id -> bool {
    (c: Id) => Below(rows, user, c, x, k)
  }

  lemma {:induction false} BelowIsUp(rows: Rows, user: User, root: Id, x: Id, k: nat)
    requires Below(rows, user, root, x, k)
    ensures Up(rows, x, k) == Some(root)
    decreases k
  {
    if k > 0 {
      BelowIsUp(rows, user, root, rows[x].parent.value, k - 1);
      assert Up(rows, x, 1) == rows[x].parent;
      UpAdd(rows, x, 1, k - 1);
    }
  }

  /** Below the root by k + 1 steps is below one of its visible children by k. */
  lemma {:induction false} BelowChild(rows: Rows, user: User, root: Id, x: Id, k: nat)
    ensures Below(rows, user, root, x, k + 1) <==>
            exists c: Id :: IsVisibleChild(rows, user, root)(c) && Below(rows, user, c, x, k)
    decreases k
  {
    if k == 0 {
      assert Below(rows, user, root, x, 1) <==> IsVisibleChild(rows, user, root)(x) && Below(rows, user, x, x, 0);
    } else if x in rows && Visible(user, rows[x]) && rows[x].parent.Some? {
      var p := rows[x].parent.value;
      BelowChild(rows, user, root, p, k - 1);
      assert forall c: Id :: Below(rows, user, c, x, k) == Below(rows, user, c, p, k - 1);
    }
  }

  lemma {:induction false} CountOnly(ids: seq<Id>, p: Id -> bool, v: Id)
    requires forall i, j :: 0 <= i < j < |ids| ==> ids[i] != ids[j]
    requires forall c :: c in ids && p(c) ==> c == v
    ensures Count(ids, p) == if v in ids && p(v) then 1 else 0
  {
    if ids != [] {
      CountOnly(ids[1..], p, v);
    }
  }

  /** Of the visible children of one asset, one or none leads down to x in k steps. */
  lemma ChildrenLeading(f: Table, user: User, y: Id, x: Id, k: nat)
    requires Valid(f)
    ensures Count(Children(f, user, y), BelowAt(f.rows, user, x, k)) == if Below(f.rows, user, y, x, k + 1) then 1 else 0
  {
    var child := IsVisibleChild(f.rows, user, y);
    var leading := BelowAt(f.rows, user, x, k);
    BelowChild(f.rows, user, y, x, k);
    CountFilter<Id>(f.ids, child, leading);
    var both := Both<Id>(child, leading);
    forall c: Id | both(c) ensures Some(c) == Up(f.rows, x, k) {
      BelowIsUp(f.rows, user, c, x, k);
    }
    if c: Id :| child(c) && leading(c) {
      assert both(c) && c in f.ids;
      CountOnly(f.ids, both, c);
    } else {
      CountPositive(f.ids, both);
    }
  }

  lemma {:induction false} TreeExact(f: Table, user: User, y: Id, maxDepth: int, depth: int, x: Id, k: nat)
    requires Valid(f)
    ensures Occurrences(BuildHierarchy(f, user, y, maxDepth, depth), x, k)
         == if (k == 0 || depth + k <= maxDepth) && Below(f.rows, user, y, x, k) then 1 else 0
    decreases k, 0, 0
  {
    if k > 0 && depth < maxDepth {
      ChildrenLeading(f, user, y, x, k - 1);
      TreesExact(f, user, Children(f, user, y), maxDepth, depth + 1, x, k - 1);
    }
  }

  lemma {:induction false} TreesExact(f: Table, user: User, ids: seq<Id>, maxDepth: int, depth: int, x: Id, k: nat)
    requires Valid(f)
    ensures OccurrencesIn(BuildEach(f, user, ids, maxDepth, depth), x, k)
         == if k == 0 || depth + k <= maxDepth then Count(ids, BelowAt(f.rows, user, x, k)) else 0
    decreases k, 1, |ids|
  {
    if ids != [] {
      TreeExact(f, user, ids[0], maxDepth, depth, x, k);
      TreesExact(f, user, ids[1..], maxDepth, depth, x, k);
    }
  }

  /** An asset that the user sees k steps below the start, k within maxDepth, is in the tree once, at
      depth k and at no other depth; nothing else is in the tree. */
  lemma HierarchyExact(f: Table, user: User, root: Id, maxDepth: nat, x: Id, k: nat)
    requires Valid(f) && Acyclic(f.rows)
    requires GetHierarchy(f, user, root, maxDepth).Ok?
    ensures var t := GetHierarchy(f, user, root, maxDepth).value;
            && Occurrences(t, x, k) == (if k <= maxDepth && Below(f.rows, user, root, x, k) then 1 else 0)
            && (Occurrences(t, x, k) == 1 ==> forall j: nat :: j != k ==> Occurrences(t, x, j) == 0)
  {
    TreeExact(f, user, root, maxDepth, 0, x, k);
    forall j: nat | j != k && Occurrences(BuildHierarchy(f, user, root, maxDepth, 0), x, k) == 1
      ensures Occurrences(BuildHierarchy(f, user, root, maxDepth, 0), x, j) == 0
    {
      TreeExact(f, user, root, maxDepth, 0, x, j);
      if Below(f.rows, user, root, x, j) {
        BelowIsUp(f.rows, user, root, x, j);
        BelowIsUp(f.rows, user, root, x, k);
        NeverTwice(f.rows, x, if j < k then j else k, if j < k then k else j);
      }
    }
  }

  /** Once the start is found, getChildren's own look-up of a node never refuses. */
  lemma NodesFound(rows: Rows, user: User, root: Id, x: Id, k: nat)
    requires FindOne(rows, root, user).Ok? && Below(rows, user, root, x, k)
    ensures FindOne(rows, x, user).Ok?
  {
  }
}
