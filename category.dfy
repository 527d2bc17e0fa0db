/**
 * The category hierarchy offered by the create and edit forms: a flat
 * list of categories, each with an optional parent, turned into a forest
 * whose nodes carry an indented display name and their depth. Also the
 * parent rule the update form enforces.
 */
module CategoryHierarchy {
  import opened Wrappers

  datatype Category = Category(id: int, name: string, parentId: Option<int>)

  /** A formatted category. */
  datatype Node = Node(id: int, name: string, originalName: string, parentId: Option<int>, level: nat, children: Children)

  /** The `children` key of a formatted category: absent when it has no children. */
  datatype Children = Absent | Present(nodes: seq<Node>)

  /** `str_repeat('— ', level)`: `level` copies of an em dash followed by a space. */
  function Indent(level: nat): string {
    if level == 0 then "" else "— " + Indent(level - 1)
  }

  /** The indent for `level` is `2 * level` characters, alternating em dash and space. */
  lemma {:induction false} IndentChars(level: nat)
    ensures |Indent(level)| == 2 * level
    ensures forall i :: 0 <= i < |Indent(level)| ==> Indent(level)[i] == if i % 2 == 0 then '—' else ' '
  {
    if level > 0 {
      IndentChars(level - 1);
      var rest := Indent(level - 1);
      assert forall i :: 2 <= i < |rest| + 2 ==> ("— " + rest)[i] == rest[i - 2];
    }
  }

  /** The collection `where` filter: the categories `keep` accepts, in their original order. */
  function Where(cs: seq<Category>, keep: Category -> bool): seq<Category> {
    if cs == [] then []
    else (if keep(cs[0]) then [cs[0]] else []) + Where(cs[1..], keep)
  }

  lemma {:induction false} WhereMembers(cs: seq<Category>, keep: Category -> bool)
    ensures forall c :: c in Where(cs, keep) <==> c in cs && keep(c)
  {
    if cs != [] {
      WhereMembers(cs[1..], keep);
      assert cs == [cs[0]] + cs[1..];
    }
  }

  /** `Category::when($excludeId, ...)` filters only for a truthy id: neither null nor 0. */
  predicate Excludes(excludeId: Option<int>) {
    excludeId.Some? && excludeId.value != 0
  }

  /** The categories left after dropping the excluded one. */
  function Remaining(all: seq<Category>, excludeId: Option<int>): seq<Category> {
    if Excludes(excludeId) then Where(all, (c: Category) => c.id != excludeId.value) else all
  }

  function Roots(cs: seq<Category>): seq<Category> {
    Where(cs, (c: Category) => c.parentId.None?)
  }

  function ChildrenOf(cs: seq<Category>, id: int): seq<Category> {
    Where(cs, (c: Category) => c.parentId == Some(id))
  }

  lemma RemainingMembers(all: seq<Category>, excludeId: Option<int>)
    ensures forall c :: c in Remaining(all, excludeId) <==> c in all && !(Excludes(excludeId) && c.id == excludeId.value)
  {
    if Excludes(excludeId) {
      WhereMembers(all, (c: Category) => c.id != excludeId.value);
    }
  }

  lemma RootsMembers(cs: seq<Category>)
    ensures forall c :: c in Roots(cs) <==> c in cs && c.parentId.None?
  {
    WhereMembers(cs, (c: Category) => c.parentId.None?);
  }

  lemma ChildrenMembers(cs: seq<Category>, id: int)
    ensures forall c :: c in ChildrenOf(cs, id) <==> c in cs && c.parentId == Some(id)
  {
    WhereMembers(cs, (c: Category) => c.parentId == Some(id));
  }

  /**
   * `rank` witnesses that the parent links have no cycle: every category
   * ranks strictly below its parent. The builder is stated for such lists;
   * the rank is its termination measure. (The controller's recursion starts
   * only at roots, and with unique ids a record reached from a root has a
   * parent chain ending there, so records on a cycle are never reached.)
   */
  ghost predicate Ranked(cs: seq<Category>, rank: int -> nat) {
    forall c :: c in cs && c.parentId.Some? ==> rank(c.id) < rank(c.parentId.value)
  }

  ghost function RankBound(cs: seq<Category>, rank: int -> nat): (b: nat)
    ensures forall c :: c in cs ==> rank(c.id) < b
  {
    if cs == [] then 0
    else var b := RankBound(cs[1..], rank); if rank(cs[0].id) < b then b else rank(cs[0].id) + 1
  }

  /** formatCategoryWithChildren: the node for `c` at depth `level`, with its children formatted one level deeper. */
  function FormatNode(c: Category, cs: seq<Category>, level: nat, ghost rank: int -> nat): Node
    requires Ranked(cs, rank)
    decreases rank(c.id), 1, 0
  {
    var kids := ChildrenOf(cs, c.id);
    ChildrenRankBelow(cs, c, rank);
    Node(c.id, Indent(level) + c.name, c.name, c.parentId, level,
         if kids == [] then Absent else Present(FormatList(kids, cs, level + 1, rank, rank(c.id))))
  }

  /** The `map(...)->values()->all()` over a list of categories that all rank below `bound`. */
  function FormatList(ks: seq<Category>, cs: seq<Category>, level: nat, ghost rank: int -> nat, ghost bound: nat): seq<Node>
    requires Ranked(cs, rank)
    requires forall k :: k in ks ==> rank(k.id) < bound
    decreases bound, 0, |ks|
  {
    if ks == [] then [] else [FormatNode(ks[0], cs, level, rank)] + FormatList(ks[1..], cs, level, rank, bound)
  }

  /** getCategoriesHierarchy: the categories without a parent, each formatted with its descendants. */
  function GetCategoriesHierarchy(all: seq<Category>, excludeId: Option<int>, ghost rank: int -> nat): seq<Node>
    requires Ranked(all, rank)
  {
    var cs := Remaining(all, excludeId);
    RemainingIsRanked(all, excludeId, rank);
    RootsMembers(cs);
    FormatList(Roots(cs), cs, 0, rank, RankBound(cs, rank))
  }

  // ---------------------------------------------------------------------
  // What the forest looks like
  // ---------------------------------------------------------------------

  /** The category a node was made from. */
  function RecordOf(n: Node): Category {
    Category(n.id, n.originalName, n.parentId)
  }

  function Records(ns: seq<Node>): (r: seq<Category>)
    ensures |r| == |ns|
    ensures forall k :: 0 <= k < |ns| ==> r[k] == RecordOf(ns[k])
  {
    if ns == [] then [] else [RecordOf(ns[0])] + Records(ns[1..])
  }

  ghost predicate HasChild(cs: seq<Category>, id: int) {
    exists c :: c in cs && c.parentId == Some(id)
  }

  /**
   * `n` is a well-formed node at depth `level` over the categories `cs`:
   * it shows a category of `cs`, its display name is `level` indents
   * followed by the category's name, its `children` key is present exactly
   * when some category has it as parent, and then the children are exactly
   * those categories, in list order, each one a well-formed node one level
   * deeper (so each child's parent is `n`).
   */
  ghost predicate Shaped(n: Node, cs: seq<Category>, level: nat)
    decreases n
  {
    && n.level == level
    && n.name == Indent(level) + n.originalName
    && RecordOf(n) in cs
    && (n.children.Present? <==> HasChild(cs, n.id))
    && (n.children.Present? ==>
          && Records(n.children.nodes) == ChildrenOf(cs, n.id)
          && forall kid :: kid in n.children.nodes ==> Shaped(kid, cs, level + 1))
  }

  lemma HasChildIff(cs: seq<Category>, id: int)
    ensures HasChild(cs, id) <==> ChildrenOf(cs, id) != []
  {
    ChildrenMembers(cs, id);
    if ChildrenOf(cs, id) != [] {
      assert ChildrenOf(cs, id)[0] in ChildrenOf(cs, id);
    }
  }

  lemma ChildrenRankBelow(cs: seq<Category>, c: Category, rank: int -> nat)
    requires Ranked(cs, rank)
    ensures forall k :: k in ChildrenOf(cs, c.id) ==> k in cs && k.parentId == Some(c.id) && rank(k.id) < rank(c.id)
  {
    ChildrenMembers(cs, c.id);
  }

  lemma {:induction false} FormatNodeShaped(c: Category, cs: seq<Category>, level: nat, rank: int -> nat)
    requires Ranked(cs, rank) && c in cs
    ensures RecordOf(FormatNode(c, cs, level, rank)) == c
    ensures Shaped(FormatNode(c, cs, level, rank), cs, level)
    decreases rank(c.id), 1, 0
  {
    var kids := ChildrenOf(cs, c.id);
    var n := FormatNode(c, cs, level, rank);
    if kids != [] {
      ChildrenRankBelow(cs, c, rank);
      var ns := FormatList(kids, cs, level + 1, rank, rank(c.id));
      FormatListShaped(kids, cs, level + 1, rank, rank(c.id));
      HasChildIff(cs, c.id);
      InnerShaped(c, cs, level, ns);
      assert n == Node(c.id, Indent(level) + c.name, c.name, c.parentId, level, Present(ns));
    } else {
      LeafShaped(c, cs, level, rank);
    }
  }

  lemma InnerShaped(c: Category, cs: seq<Category>, level: nat, ns: seq<Node>)
    requires c in cs && HasChild(cs, c.id)
    requires Records(ns) == ChildrenOf(cs, c.id)
    requires forall i :: 0 <= i < |ns| ==> Shaped(ns[i], cs, level + 1)
    ensures Shaped(Node(c.id, Indent(level) + c.name, c.name, c.parentId, level, Present(ns)), cs, level)
  {
    forall kid | kid in ns
      ensures Shaped(kid, cs, level + 1)
    {
      var k :| 0 <= k < |ns| && ns[k] == kid;
    }
  }

  lemma LeafShaped(c: Category, cs: seq<Category>, level: nat, rank: int -> nat)
    requires Ranked(cs, rank) && c in cs
    requires ChildrenOf(cs, c.id) == []
    ensures RecordOf(FormatNode(c, cs, level, rank)) == c
    ensures Shaped(FormatNode(c, cs, level, rank), cs, level)
  {
    HasChildIff(cs, c.id);
    assert FormatNode(c, cs, level, rank) == Node(c.id, Indent(level) + c.name, c.name, c.parentId, level, Absent);
  }

  lemma {:induction false} FormatListShaped(ks: seq<Category>, cs: seq<Category>, level: nat, rank: int -> nat, bound: nat)
    requires Ranked(cs, rank)
    requires forall k :: k in ks ==> k in cs && rank(k.id) < bound
    ensures Records(FormatList(ks, cs, level, rank, bound)) == ks
    ensures forall i :: 0 <= i < |ks| ==> Shaped(FormatList(ks, cs, level, rank, bound)[i], cs, level)
    decreases bound, 0, |ks|
  {
    if ks != [] {
      FormatNodeShaped(ks[0], cs, level, rank);
      FormatListShaped(ks[1..], cs, level, rank, bound);
      var ns := FormatList(ks, cs, level, rank, bound);
      assert ns[1..] == FormatList(ks[1..], cs, level, rank, bound);
      assert ks == [ks[0]] + ks[1..];
    }
  }

  lemma RemainingIsRanked(all: seq<Category>, excludeId: Option<int>, rank: int -> nat)
    requires Ranked(all, rank)
    ensures Ranked(Remaining(all, excludeId), rank)
    ensures forall c :: c in Remaining(all, excludeId) ==> c in all
  {
    RemainingMembers(all, excludeId);
  }

  /**
   * The top level is exactly the remaining categories without a parent, in
   * list order, and every node of the forest is well formed at its depth:
   * roots have level 0, children their parent's level + 1.
   */
  lemma HierarchyShape(all: seq<Category>, excludeId: Option<int>, rank: int -> nat)
    requires Ranked(all, rank)
    ensures var cs, f := Remaining(all, excludeId), GetCategoriesHierarchy(all, excludeId, rank);
      && Records(f) == Roots(cs)
      && forall i :: 0 <= i < |f| ==> f[i].parentId.None? && Shaped(f[i], cs, 0)
  {
    var cs := Remaining(all, excludeId);
    RemainingIsRanked(all, excludeId, rank);
    var f := GetCategoriesHierarchy(all, excludeId, rank);
    RootsMembers(cs);
    FormatListShaped(Roots(cs), cs, 0, rank, RankBound(cs, rank));
    forall i | 0 <= i < |f|
      ensures f[i].parentId.None?
    {
      assert Records(f)[i] in Roots(cs);
    }
  }

  /** `m` is `n` or one of its descendants. */
  ghost predicate Within(m: Node, n: Node)
    decreases n
  {
    m == n || (n.children.Present? && exists kid :: kid in n.children.nodes && Within(m, kid))
  }

  /** `m` appears somewhere in the forest `f`, at any depth. */
  ghost predicate Occurs(m: Node, f: seq<Node>) {
    exists t :: t in f && Within(m, t)
  }

  lemma {:induction false} WithinFacts(m: Node, n: Node, cs: seq<Category>, level: nat)
    requires Shaped(n, cs, level)
    requires n.parentId.None? || exists c :: c in cs && Some(c.id) == n.parentId
    requires Within(m, n)
    ensures RecordOf(m) in cs
    ensures m.name == Indent(m.level) + m.originalName
    ensures m.parentId.None? || exists c :: c in cs && Some(c.id) == m.parentId
    decreases n
  {
    if m != n {
      var kid :| kid in n.children.nodes && Within(m, kid);
      ChildFacts(n, kid, cs, level);
      WithinFacts(m, kid, cs, level + 1);
    }
  }

  /** A child of a well-formed node is well formed one level deeper, and its parent is the node's category. */
  lemma ChildFacts(n: Node, kid: Node, cs: seq<Category>, level: nat)
    requires Shaped(n, cs, level)
    requires n.children.Present? && kid in n.children.nodes
    ensures Shaped(kid, cs, level + 1)
    ensures RecordOf(n) in cs && kid.parentId == Some(RecordOf(n).id)
  {
    var kids := n.children.nodes;
    var k :| 0 <= k < |kids| && kids[k] == kid;
    ChildrenMembers(cs, n.id);
    assert Records(kids)[k] in ChildrenOf(cs, n.id);
  }

  /**
   * Every node anywhere in the forest shows a remaining category (so never
   * the excluded one), carries the indented name for its depth, and has a
   * parent that is itself among the remaining categories: a category whose
   * parent is excluded or missing appears nowhere, not even as a root.
   */
  lemma HierarchyNodes(all: seq<Category>, excludeId: Option<int>, rank: int -> nat, m: Node)
    requires Ranked(all, rank)
    requires Occurs(m, GetCategoriesHierarchy(all, excludeId, rank))
    ensures RecordOf(m) in Remaining(all, excludeId) && RecordOf(m) in all
    ensures Excludes(excludeId) ==> m.id != excludeId.value
    ensures m.name == Indent(m.level) + m.originalName
    ensures m.parentId.Some? ==> exists c :: c in Remaining(all, excludeId) && Some(c.id) == m.parentId
  {
    var cs := Remaining(all, excludeId);
    var f := GetCategoriesHierarchy(all, excludeId, rank);
    HierarchyShape(all, excludeId, rank);
    var t :| t in f && Within(m, t);
    var i :| 0 <= i < |f| && f[i] == t;
    WithinFacts(m, t, cs, 0);
    RemainingMembers(all, excludeId);
  }

  lemma {:induction false} NoParentlessNoRoots(cs: seq<Category>)
    requires forall c :: c in cs ==> c.parentId.Some?
    ensures Roots(cs) == []
  {
    if cs != [] {
      assert forall c :: c in cs[1..] ==> c in cs;
      NoParentlessNoRoots(cs[1..]);
    }
  }

  function ChainRank(id: int): nat {
    if id == 1 then 2 else if id == 2 then 1 else 0
  }

  /** Excluding a category drops its whole subtree: descendants are not promoted to roots. */
  lemma ExcludedSubtreeVanishes()
    ensures var all := [Category(1, "Engine", None), Category(2, "Spark Plug", Some(1)), Category(3, "Electrode", Some(2))];
      GetCategoriesHierarchy(all, Some(1), ChainRank) == []
  {
    var all := [Category(1, "Engine", None), Category(2, "Spark Plug", Some(1)), Category(3, "Electrode", Some(2))];
    var cs := Remaining(all, Some(1));
    RemainingMembers(all, Some(1));
    forall c | c in cs
      ensures c.parentId.Some?
    {
      assert c in all && c.id != 1;
    }
    NoParentlessNoRoots(cs);
  }

  lemma FormatListCons(k: Category, ks: seq<Category>, cs: seq<Category>, level: nat, rank: int -> nat, bound: nat)
    requires Ranked(cs, rank)
    requires rank(k.id) < bound && forall k' :: k' in ks ==> rank(k'.id) < bound
    ensures FormatList([k] + ks, cs, level, rank, bound) == [FormatNode(k, cs, level, rank)] + FormatList(ks, cs, level, rank, bound)
  {
    assert ([k] + ks)[1..] == ks;
  }

  lemma RootsCons(c: Category, cs: seq<Category>)
    ensures Roots([c] + cs) == (if c.parentId.None? then [c] else []) + Roots(cs)
  {
    assert ([c] + cs)[1..] == cs;
  }

  lemma ChildrenCons(c: Category, cs: seq<Category>, id: int)
    ensures ChildrenOf([c] + cs, id) == (if c.parentId == Some(id) then [c] else []) + ChildrenOf(cs, id)
  {
    assert ([c] + cs)[1..] == cs;
  }

  function TwoLevelRank(id: int): nat {
    if id == 1 || id == 3 then 1 else 0
  }

  function TwoLevelCategories(): seq<Category> {
    [Category(1, "Engine", None), Category(2, "Spark Plug", Some(1)), Category(3, "Filters", None)]
  }

  lemma TwoLevelRanked()
    ensures Ranked(TwoLevelCategories(), TwoLevelRank)
  {
  }

  lemma TwoLevelRoots()
    ensures var all := TwoLevelCategories(); Roots(all) == [all[0], all[2]]
  {
    var all := TwoLevelCategories();
    var tail := [all[2]];
    assert tail == [all[2]] + [];
    assert all == [all[0]] + ([all[1]] + tail);
    RootsCons(all[2], []);
    RootsCons(all[1], tail);
    RootsCons(all[0], [all[1]] + tail);
  }

  lemma TwoLevelChildren(id: int)
    ensures var all := TwoLevelCategories(); ChildrenOf(all, id) == if id == 1 then [all[1]] else []
  {
    var all := TwoLevelCategories();
    var tail := [all[2]];
    assert tail == [all[2]] + [];
    assert all == [all[0]] + ([all[1]] + tail);
    ChildrenCons(all[2], [], id);
    ChildrenCons(all[1], tail, id);
    ChildrenCons(all[0], [all[1]] + tail, id);
  }

  lemma TwoLevelHasChild(id: int)
    ensures HasChild(TwoLevelCategories(), id) <==> id == 1
  {
    var all := TwoLevelCategories();
    if id == 1 {
      assert all[1] in all && all[1].parentId == Some(1);
    } else {
      TwoLevelChildren(id);
      HasChildIff(all, id);
    }
  }

  /**
   * Categories Engine (1) with child Spark Plug (2), and Filters (3): two
   * roots, and one child "— Spark Plug" at level 1 under Engine.
   */
  lemma TwoLevelExample()
    ensures var f := GetCategoriesHierarchy(TwoLevelCategories(), None, TwoLevelRank);
      && |f| == 2 && f[0].id == 1 && f[1].id == 3 && f[1].children.Absent?
      && f[0].children == Present([Node(2, Indent(1) + "Spark Plug", "Spark Plug", Some(1), 1, Absent)])
      && Indent(1) == "— "
  {
    TwoLevelForest();
    assert Indent(1) == "— " + "";
  }

  /** The forest has the two roots, Engine with its one child and Filters without children. */
  lemma TwoLevelForest()
    ensures var f := GetCategoriesHierarchy(TwoLevelCategories(), None, TwoLevelRank);
      && |f| == 2 && f[0].id == 1 && f[1].id == 3 && f[1].children.Absent?
      && f[0].children == Present([Node(2, Indent(1) + "Spark Plug", "Spark Plug", Some(1), 1, Absent)])
  {
    var all := TwoLevelCategories();
    TwoLevelRanked();
    TwoLevelRoots();
    HierarchyShape(all, None, TwoLevelRank);
    var f := GetCategoriesHierarchy(all, None, TwoLevelRank);
    assert Records(f) == [all[0], all[2]];
    assert f[0] in f && f[1] in f;
    TwoLevelEngine(f[0]);
    TwoLevelHasChild(3);
  }

  /** The Engine root holds exactly the Spark Plug node. */
  lemma TwoLevelEngine(n: Node)
    requires Shaped(n, TwoLevelCategories(), 0) && RecordOf(n) == TwoLevelCategories()[0]
    ensures n.children == Present([Node(2, Indent(1) + "Spark Plug", "Spark Plug", Some(1), 1, Absent)])
  {
    var all := TwoLevelCategories();
    TwoLevelHasChild(1);
    TwoLevelChildren(1);
    var kids := n.children.nodes;
    assert Records(kids) == [all[1]];
    assert kids[0] in kids;
    TwoLevelKid(kids[0]);
    assert kids == [kids[0]];
  }

  /** The one child node, Spark Plug at depth 1, has no children of its own. */
  lemma TwoLevelKid(k: Node)
    requires Shaped(k, TwoLevelCategories(), 1) && RecordOf(k) == TwoLevelCategories()[1]
    ensures k == Node(2, Indent(1) + "Spark Plug", "Spark Plug", Some(1), 1, Absent)
  {
    TwoLevelHasChild(2);
  }

  // ---------------------------------------------------------------------
  // The parent rule of update
  // ---------------------------------------------------------------------

  datatype ParentError = ParentNotFound | OwnParent

  /**
   * The `parent_id` rules of update: nullable, must name an existing
   * category, and must not be the category's own id. No rule looks at the
   * category's descendants.
   */
  function ValidateParent(category: Category, parentId: Option<int>, existing: seq<Category>): Result<Option<int>, ParentError> {
    if parentId.None? then Ok(None)
    else if !(exists c :: c in existing && c.id == parentId.value) then Err(ParentNotFound)
    else if parentId.value == category.id then Err(OwnParent)
    else Ok(parentId)
  }

  /** The update rejects exactly the category's own id among the existing ones; every other existing id passes. */
  lemma OwnParentRejected(category: Category, p: int, existing: seq<Category>)
    requires exists c :: c in existing && c.id == p
    ensures ValidateParent(category, Some(p), existing) == Err(OwnParent) <==> p == category.id
    ensures p != category.id ==> ValidateParent(category, Some(p), existing) == Ok(Some(p))
  {
  }

  /**
   * A category that is its own parent leaves no rank, and it is not a
   * root and is a child only under its own id: no other record reaches
   * it, so it would vanish from the parent-choice forest.
   */
  lemma OwnParentHasNoRank(cs: seq<Category>, c: Category, rank: int -> nat)
    requires c in cs && c.parentId == Some(c.id)
    ensures !Ranked(cs, rank)
    ensures c !in Roots(cs)
    ensures forall id :: c in ChildrenOf(cs, id) ==> id == c.id
  {
    RootsMembers(cs);
    forall id | c in ChildrenOf(cs, id)
      ensures id == c.id
    {
      ChildrenMembers(cs, id);
    }
  }

  /**
   * The rule does not look deeper: making Engine (1) a child of its own
   * child Spark Plug (2) passes. The resulting categories form a cycle
   * (no rank exists) and have no root, so the hierarchy built from them
   * is empty: both records vanish from the parent-choice forest.
   */
  lemma DescendantAsParentAccepted(rank: int -> nat)
    ensures var engine, plug := Category(1, "Engine", None), Category(2, "Spark Plug", Some(1));
      && ValidateParent(engine, Some(2), [engine, plug]) == Ok(Some(2))
      && !Ranked([Category(1, "Engine", Some(2)), plug], rank)
      && Roots([Category(1, "Engine", Some(2)), plug]) == []
  {
    var engine, plug := Category(1, "Engine", None), Category(2, "Spark Plug", Some(1));
    assert plug in [engine, plug];
    var updated := [Category(1, "Engine", Some(2)), plug];
    assert updated[0] in updated && updated[1] in updated;
    NoParentlessNoRoots(updated);
  }
}
