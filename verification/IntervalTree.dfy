/**
 The interval tree behind every resource pool: an AVL tree of disjoint closed ranges,
 each free or in use. The tree operations are total functions on trees; a Rust panic is
 an explicit outcome (`None`) where the code can reach it, and a precondition that every
 caller discharges where it cannot.
 */
module IntervalTrees {
  import opened Prelude

  /** A closed range `[min, max]` of resource identifiers. */
  datatype Range = Range(min: int, max: int) {
    /** What `Range::new` accepts: ordered, 64-bit, and not the whole 64-bit space. */
    predicate Proper() {
      0 <= min <= max <= U64_MAX && !(min == 0 && max == U64_MAX)
    }

    function Len(): int { max - min + 1 }

    predicate Has(a: int) { min <= a <= max }

    predicate Meets(other: Range) {
      Max(min, other.min) <= Min(max, other.max)
    }

    predicate Contains(other: Range) {
      min <= other.min && other.max <= max
    }

    /** The lexicographic order the tree is searched by. */
    predicate Less(other: Range) {
      min < other.min || (min == other.min && max < other.max)
    }
  }

  datatype NodeState = Free | Allocated | Valued

  datatype Entry = Entry(key: Range, state: NodeState)

  /** `height` and `maxKey` are the cached fields of the Rust node. */
  datatype Tree =
    | Leaf
    | Node(left: Tree, key: Range, state: NodeState, right: Tree, height: nat, maxKey: int)

  function Height(t: Tree): nat { if t.Leaf? then 0 else t.height }

  function MaxKey(t: Tree): int { if t.Leaf? then 0 else t.maxKey }

  /** The entries held by a tree: the abstract value every operation is specified by. */
  function Entries(t: Tree): set<Entry> {
    match t
    case Leaf => {}
    case Node(l, k, s, r, _, _) => Entries(l) + {Entry(k, s)} + Entries(r)
  }

  /** Cached fields are right and sibling heights differ by at most one. */
  predicate Sound(t: Tree) {
    t.Node? ==>
      && Sound(t.left) && Sound(t.right)
      && t.height == Max(Height(t.left), Height(t.right)) + 1
      && t.maxKey == Max(MaxKey(t.left), Max(MaxKey(t.right), t.key.max))
      && -1 <= Height(t.left) - Height(t.right) <= 1
  }

  /** Search order: proper ranges inside `[lo, hi)`, strictly increasing left to right. */
  predicate Within(t: Tree, lo: int, hi: int) {
    t.Node? ==>
      && t.key.Proper() && lo <= t.key.min && t.key.max < hi
      && Within(t.left, lo, t.key.min) && Within(t.right, t.key.max + 1, hi)
  }

  predicate Valid(t: Tree) { Sound(t) && Within(t, 0, U64_MAX + 1) }

  /** The bounds of a tree bound its entries. */
  lemma {:induction false} EntriesWithin(t: Tree, lo: int, hi: int)
    requires Within(t, lo, hi)
    ensures forall e <- Entries(t) :: e.key.Proper() && lo <= e.key.min && e.key.max < hi
  {
    if t.Node? {
      EntriesWithin(t.left, lo, t.key.min);
      EntriesWithin(t.right, t.key.max + 1, hi);
    }
  }

  /** Entries of an ordered tree are pairwise disjoint; equal ranges are equal entries. */
  lemma {:induction false} EntriesDisjoint(t: Tree, lo: int, hi: int, a: Entry, b: Entry)
    requires Within(t, lo, hi) && a in Entries(t) && b in Entries(t) && a != b
    ensures !a.key.Meets(b.key)
  {
    EntriesWithin(t.left, lo, t.key.min);
    EntriesWithin(t.right, t.key.max + 1, hi);
    if a in Entries(t.left) && b in Entries(t.left) {
      EntriesDisjoint(t.left, lo, t.key.min, a, b);
    } else if a in Entries(t.right) && b in Entries(t.right) {
      EntriesDisjoint(t.right, t.key.max + 1, hi, a, b);
    }
  }

  /** A node with freshly computed cached fields (`update_cached_info`). */
  function Join(l: Tree, k: Range, s: NodeState, r: Tree): (t: Tree) {
    Node(l, k, s, r, Max(Height(l), Height(r)) + 1, Max(MaxKey(l), Max(MaxKey(r), k.max)))
  }

  function RotateLeft(t: Tree): (r: Tree)
    requires t.Node? && t.right.Node?
    ensures Entries(r) == Entries(t)
  {
    Join(Join(t.left, t.key, t.state, t.right.left), t.right.key, t.right.state, t.right.right)
  }

  function RotateRight(t: Tree): (r: Tree)
    requires t.Node? && t.left.Node?
    ensures Entries(r) == Entries(t)
  {
    Join(t.left.left, t.left.key, t.left.state, Join(t.left.right, t.key, t.state, t.right))
  }

  /** Heights after rebalancing a node whose children have heights `l` and `r`. */
  predicate Settled(l: nat, r: nat, h: nat) {
    && Max(l, r) <= h <= Max(l, r) + 1
    && (-1 <= l - r <= 1 ==> h == Max(l, r) + 1)
  }

  /** `rotate_left_successor`: the left child is two levels higher. */
  function RotateLeftSuccessor(l: Tree, k: Range, s: NodeState, r: Tree): (t: Tree)
    requires Sound(l) && Sound(r) && Height(l) == Height(r) + 2
    ensures Sound(t) && Settled(Height(l), Height(r), Height(t))
    ensures Entries(t) == Entries(Join(l, k, s, r))
  {
    assert Sound(l.left) && Sound(l.right);
    var l' := if Height(l.left) < Height(l.right) then RotateLeft(l) else l;
    RotateRight(Join(l', k, s, r))
  }

  /** `rotate_right_successor`: the right child is two levels higher. */
  function RotateRightSuccessor(l: Tree, k: Range, s: NodeState, r: Tree): (t: Tree)
    requires Sound(l) && Sound(r) && Height(r) == Height(l) + 2
    ensures Sound(t) && Settled(Height(l), Height(r), Height(t))
    ensures Entries(t) == Entries(Join(l, k, s, r))
  {
    assert Sound(r.left) && Sound(r.right);
    var r' := if Height(r.left) > Height(r.right) then RotateRight(r) else r;
    RotateLeft(Join(l, k, s, r'))
  }

  /**
   `updated_node`: refresh the cached fields, then rotate when the children's heights
   differ by two. A larger difference is the `unreachable!()` arm of the Rust code; the
   precondition rules it out and every caller below proves it.
   */
  function Updated(l: Tree, k: Range, s: NodeState, r: Tree): (t: Tree)
    requires Sound(l) && Sound(r) && -2 <= Height(l) - Height(r) <= 2
    ensures Sound(t) && Settled(Height(l), Height(r), Height(t))
    ensures Entries(t) == Entries(l) + {Entry(k, s)} + Entries(r)
  {
    match Height(l) - Height(r)
    case 2 => RotateLeftSuccessor(l, k, s, r)
    case -2 => RotateRightSuccessor(l, k, s, r)
    case _ => Join(l, k, s, r)
  }

  lemma RotateLeftWithin(t: Tree, lo: int, hi: int)
    requires t.Node? && t.right.Node? && Within(t, lo, hi)
    ensures Within(RotateLeft(t), lo, hi)
  {
    assert Within(t.right, t.key.max + 1, hi);
  }

  lemma RotateRightWithin(t: Tree, lo: int, hi: int)
    requires t.Node? && t.left.Node? && Within(t, lo, hi)
    ensures Within(RotateRight(t), lo, hi)
  {
    assert Within(t.left, lo, t.key.min);
  }

  lemma RotateLeftSuccessorWithin(l: Tree, k: Range, s: NodeState, r: Tree, lo: int, hi: int)
    requires Sound(l) && Sound(r) && Height(l) == Height(r) + 2 && Within(Join(l, k, s, r), lo, hi)
    ensures Within(RotateLeftSuccessor(l, k, s, r), lo, hi)
  {
    if Height(l.left) < Height(l.right) {
      RotateLeftWithin(l, lo, k.min);
      RotateRightWithin(Join(RotateLeft(l), k, s, r), lo, hi);
    } else {
      RotateRightWithin(Join(l, k, s, r), lo, hi);
    }
  }

  lemma RotateRightSuccessorWithin(l: Tree, k: Range, s: NodeState, r: Tree, lo: int, hi: int)
    requires Sound(l) && Sound(r) && Height(r) == Height(l) + 2 && Within(Join(l, k, s, r), lo, hi)
    ensures Within(RotateRightSuccessor(l, k, s, r), lo, hi)
  {
    if Height(r.left) > Height(r.right) {
      RotateRightWithin(r, k.max + 1, hi);
      RotateLeftWithin(Join(l, k, s, RotateRight(r)), lo, hi);
    } else {
      RotateLeftWithin(Join(l, k, s, r), lo, hi);
    }
  }

  /** Rebalancing keeps the search order. */
  lemma UpdatedWithin(l: Tree, k: Range, s: NodeState, r: Tree, lo: int, hi: int)
    requires Sound(l) && Sound(r) && -2 <= Height(l) - Height(r) <= 2
    requires k.Proper() && lo <= k.min && k.max < hi && Within(l, lo, k.min) && Within(r, k.max + 1, hi)
    ensures Within(Updated(l, k, s, r), lo, hi)
  {
    if Height(l) - Height(r) == 2 {
      RotateLeftSuccessorWithin(l, k, s, r, lo, hi);
    } else if Height(l) - Height(r) == -2 {
      RotateRightSuccessorWithin(l, k, s, r, lo, hi);
    }
  }

  /** No entry of the tree shares an identifier with `key`. */
  predicate Clear(t: Tree, key: Range) {
    forall e <- Entries(t) :: !e.key.Meets(key)
  }

  /** The search path of `key` runs into a node that `key` meets: `insert` panics. */
  predicate Blocked(t: Tree, key: Range) {
    t.Node? && (t.key.Meets(key) || Blocked(if t.key.Less(key) then t.right else t.left, key))
  }

  /** Insert a free range. */
  function Insert(t: Tree, key: Range): (r: Tree)
    requires Sound(t)
    ensures Sound(r) && Height(t) <= Height(r) <= Height(t) + 1
  {
    if t.Leaf? then Join(Leaf, key, Free, Leaf)
    else if t.key.Less(key) then Updated(t.left, t.key, t.state, Insert(t.right, key))
    else Updated(Insert(t.left, key), t.key, t.state, t.right)
  }

  lemma {:induction false} InsertAdds(t: Tree, key: Range)
    requires Sound(t)
    ensures Entries(Insert(t, key)) == Entries(t) + {Entry(key, Free)}
  {
    if t.Node? {
      if t.key.Less(key) {
        InsertAdds(t.right, key);
      } else {
        InsertAdds(t.left, key);
      }
    }
  }

  lemma OneSided(k: Range, key: Range)
    requires k.Proper() && key.Proper() && !k.Meets(key)
    ensures if k.Less(key) then k.max < key.min else key.max < k.min
  {
  }

  lemma {:induction false} InsertWithin(t: Tree, key: Range, lo: int, hi: int)
    requires Sound(t) && Within(t, lo, hi) && !Blocked(t, key)
    requires key.Proper() && lo <= key.min && key.max < hi
    ensures Within(Insert(t, key), lo, hi)
  {
    if t.Node? {
      OneSided(t.key, key);
      if t.key.Less(key) {
        InsertWithin(t.right, key, t.key.max + 1, hi);
        UpdatedWithin(t.left, t.key, t.state, Insert(t.right, key), lo, hi);
      } else {
        InsertWithin(t.left, key, lo, t.key.min);
        UpdatedWithin(Insert(t.left, key), t.key, t.state, t.right, lo, hi);
      }
    }
  }

  /** Insertion panics exactly when the range meets some node, on the search path or not. */
  lemma {:induction false} InsertPanics(t: Tree, key: Range, lo: int, hi: int)
    requires Within(t, lo, hi) && key.Proper()
    ensures Blocked(t, key) <==> !Clear(t, key)
  {
    if t.Node? {
      assert Entry(t.key, t.state) in Entries(t);
      InsertPanics(t.left, key, lo, t.key.min);
      InsertPanics(t.right, key, t.key.max + 1, hi);
      EntriesWithin(t.left, lo, t.key.min);
      EntriesWithin(t.right, t.key.max + 1, hi);
    }
  }

  /** The leftmost node and the tree without it (`get_new_root`). */
  function MinEntry(t: Tree): Entry
    requires t.Node?
  {
    if t.left.Leaf? then Entry(t.key, t.state) else MinEntry(t.left)
  }

  function DropMin(t: Tree): (r: Tree)
    requires Sound(t) && t.Node?
    ensures Sound(r) && Height(t) - 1 <= Height(r) <= Height(t)
    ensures Entries(t) == Entries(r) + {MinEntry(t)}
  {
    if t.left.Leaf? then t.right
    else Updated(DropMin(t.left), t.key, t.state, t.right)
  }

  lemma {:induction false} DropMinWithin(t: Tree, lo: int, hi: int)
    requires Sound(t) && t.Node? && Within(t, lo, hi)
    ensures MinEntry(t).key.Proper() && lo <= MinEntry(t).key.min && MinEntry(t).key.max < hi
    ensures Within(DropMin(t), MinEntry(t).key.max + 1, hi)
  {
    if t.left.Node? {
      DropMinWithin(t.left, lo, t.key.min);
      UpdatedWithin(DropMin(t.left), t.key, t.state, t.right, MinEntry(t.left).key.max + 1, hi);
    }
  }

  lemma {:induction false} WiderBounds(t: Tree, lo: int, hi: int, lo': int, hi': int)
    requires Within(t, lo, hi) && lo' <= lo && hi <= hi'
    ensures Within(t, lo', hi')
  {
    if t.Node? {
      WiderBounds(t.left, lo, t.key.min, lo', t.key.min);
      WiderBounds(t.right, t.key.max + 1, hi, t.key.max + 1, hi');
    }
  }

  /** Remove the root (`delete_root` and `combine_subtrees`). */
  function DeleteRoot(t: Tree): (r: Tree)
    requires Sound(t) && t.Node?
    ensures Sound(r) && Height(t) - 1 <= Height(r) <= Height(t)
    ensures Entries(r) == Entries(t.left) + Entries(t.right)
  {
    if t.left.Leaf? then t.right
    else if t.right.Leaf? then t.left
    else
      var m := MinEntry(t.right);
      Updated(t.left, m.key, m.state, DropMin(t.right))
  }

  /** Remove the node whose range is exactly `key`, if there is one. */
  function Delete(t: Tree, key: Range): (r: Tree)
    requires Sound(t)
    ensures Sound(r) && Height(t) - 1 <= Height(r) <= Height(t)
  {
    if t.Leaf? then Leaf
    else if t.key == key then DeleteRoot(t)
    else if t.key.Less(key) then Updated(t.left, t.key, t.state, Delete(t.right, key))
    else Updated(Delete(t.left, key), t.key, t.state, t.right)
  }

  lemma DeleteRootWithin(t: Tree, lo: int, hi: int)
    requires Sound(t) && t.Node? && Within(t, lo, hi)
    ensures Within(DeleteRoot(t), lo, hi)
  {
    WiderBounds(t.left, lo, t.key.min, lo, hi);
    WiderBounds(t.right, t.key.max + 1, hi, lo, hi);
    if t.left.Node? && t.right.Node? {
      DropMinWithin(t.right, t.key.max + 1, hi);
      var m := MinEntry(t.right);
      WiderBounds(t.left, lo, t.key.min, lo, m.key.min);
      UpdatedWithin(t.left, m.key, m.state, DropMin(t.right), lo, hi);
    }
  }

  lemma {:induction false} DeleteWithin(t: Tree, key: Range, lo: int, hi: int)
    requires Sound(t) && Within(t, lo, hi)
    ensures Within(Delete(t, key), lo, hi)
  {
    if t.Node? {
      if t.key == key {
        DeleteRootWithin(t, lo, hi);
      } else if t.key.Less(key) {
        DeleteWithin(t.right, key, t.key.max + 1, hi);
        UpdatedWithin(t.left, t.key, t.state, Delete(t.right, key), lo, hi);
      } else {
        DeleteWithin(t.left, key, lo, t.key.min);
        UpdatedWithin(Delete(t.left, key), t.key, t.state, t.right, lo, hi);
      }
    }
  }

  /** The entries of `t` other than the one for exactly `key`. */
  function Others(t: Tree, key: Range): set<Entry> {
    set e <- Entries(t) | e.key != key
  }

  /** Outside the side the search takes, no entry has the key. */
  lemma OthersOneSide(t: Tree, key: Range, lo: int, hi: int)
    requires t.Node? && Within(t, lo, hi)
    ensures !t.key.Less(key) ==> Others(t.right, key) == Entries(t.right)
    ensures t.key.Less(key) || t.key == key ==> Others(t.left, key) == Entries(t.left)
    ensures Others(t, key) == Others(t.left, key) + Others(t.right, key) +
                              (if t.key == key then {} else {Entry(t.key, t.state)})
  {
    EntriesWithin(t.left, lo, t.key.min);
    EntriesWithin(t.right, t.key.max + 1, hi);
  }

  lemma {:induction false} DeleteRemoves(t: Tree, key: Range, lo: int, hi: int)
    requires Sound(t) && Within(t, lo, hi)
    ensures Entries(Delete(t, key)) == Others(t, key)
  {
    if t.Node? {
      OthersOneSide(t, key, lo, hi);
      if t.key.Less(key) {
        DeleteRemoves(t.right, key, t.key.max + 1, hi);
      } else if t.key != key {
        DeleteRemoves(t.left, key, lo, t.key.min);
      }
    }
  }

  /** `get_superset`: the entry that covers the whole of `key`. */
  function Superset(t: Tree, key: Range): (r: Option<Entry>)
    ensures r.Some? ==> r.value in Entries(t) && r.value.key.Contains(key)
  {
    if t.Leaf? then None
    else if t.key.Contains(key) then Some(Entry(t.key, t.state))
    else if key.max < t.key.min then Superset(t.left, key)
    else if key.min > t.key.max then Superset(t.right, key)
    else None
  }

  /** The search misses no covering entry. */
  lemma {:induction false} SupersetFinds(t: Tree, key: Range, lo: int, hi: int)
    requires Within(t, lo, hi) && key.Proper() && Superset(t, key).None?
    ensures forall e <- Entries(t) :: !e.key.Contains(key)
  {
    if t.Node? {
      EntriesWithin(t.left, lo, t.key.min);
      EntriesWithin(t.right, t.key.max + 1, hi);
      if key.max < t.key.min {
        SupersetFinds(t.left, key, lo, t.key.min);
      } else if key.min > t.key.max {
        SupersetFinds(t.right, key, t.key.max + 1, hi);
      }
    }
  }

  /** The state changes `update` accepts; it panics on every other one. */
  predicate MayBecome(from: NodeState, to: NodeState) {
    (from == Free && to == Allocated) || (from != Free && to == Valued)
  }

  /** `update` reaches a node with exactly this range in a state it refuses to change. */
  predicate UpdatePanics(t: Tree, key: Range, state: NodeState) {
    && t.Node?
    && if t.key == key then !MayBecome(t.state, state)
       else UpdatePanics(if t.key.Less(key) then t.right else t.left, key, state)
  }

  /** Change the state of the node whose range is exactly `key`, if there is one. */
  function Update(t: Tree, key: Range, state: NodeState): (r: Tree)
    requires Sound(t)
    ensures Sound(r) && Height(r) == Height(t) && MaxKey(r) == MaxKey(t)
  {
    if t.Leaf? then Leaf
    else if t.key == key then t.(state := state)
    else if t.key.Less(key) then t.(right := Update(t.right, key, state))
    else t.(left := Update(t.left, key, state))
  }

  lemma {:induction false} UpdateWithin(t: Tree, key: Range, state: NodeState, lo: int, hi: int)
    requires Sound(t) && Within(t, lo, hi)
    ensures Within(Update(t, key, state), lo, hi)
  {
    if t.Node? {
      UpdateWithin(t.right, key, state, t.key.max + 1, hi);
      UpdateWithin(t.left, key, state, lo, t.key.min);
    }
  }

  /** The search for a range in the tree takes the side that holds it. */
  lemma EntrySide(t: Tree, key: Range, from: NodeState, lo: int, hi: int)
    requires Within(t, lo, hi) && Entry(key, from) in Entries(t)
    ensures t.key == key ==> t.state == from
    ensures t.key != key && t.key.Less(key) ==> Entry(key, from) in Entries(t.right)
    ensures t.key != key && !t.key.Less(key) ==> Entry(key, from) in Entries(t.left)
  {
    EntriesWithin(t.left, lo, t.key.min);
    EntriesWithin(t.right, t.key.max + 1, hi);
  }

  lemma {:induction false} UpdatePanicsExactly(t: Tree, key: Range, from: NodeState, to: NodeState, lo: int, hi: int)
    requires Within(t, lo, hi) && Entry(key, from) in Entries(t)
    ensures UpdatePanics(t, key, to) <==> !MayBecome(from, to)
  {
    EntrySide(t, key, from, lo, hi);
    hide Entries, MayBecome;
    if t.key != key {
      if t.key.Less(key) {
        UpdatePanicsExactly(t.right, key, from, to, t.key.max + 1, hi);
      } else {
        UpdatePanicsExactly(t.left, key, from, to, lo, t.key.min);
      }
    }
  }

  lemma {:induction false} UpdateSetsEntry(t: Tree, key: Range, from: NodeState, to: NodeState, lo: int, hi: int)
    requires Sound(t) && Within(t, lo, hi) && Entry(key, from) in Entries(t)
    ensures Entries(Update(t, key, to)) == Others(t, key) + {Entry(key, to)}
  {
    EntrySide(t, key, from, lo, hi);
    OthersOneSide(t, key, lo, hi);
    hide Others;
    if t.key != key {
      if t.key.Less(key) {
        UpdateSetsEntry(t.right, key, from, to, t.key.max + 1, hi);
      } else {
        UpdateSetsEntry(t.left, key, from, to, lo, t.key.min);
      }
    }
  }

  /** The update of a held node goes through exactly for the allowed state changes. */
  lemma UpdateSetsState(t: Tree, key: Range, from: NodeState, to: NodeState, lo: int, hi: int)
    requires Sound(t) && Within(t, lo, hi) && Entry(key, from) in Entries(t)
    ensures UpdatePanics(t, key, to) <==> !MayBecome(from, to)
    ensures UpdatePanics(t, key, to) <==>
      to == Free || (from == Free && to == Valued) || (from != Free && to == Allocated)
    ensures Entries(Update(t, key, to)) == Others(t, key) + {Entry(key, to)}
  {
    UpdatePanicsExactly(t, key, from, to, lo, hi);
    UpdateSetsEntry(t, key, from, to, lo, hi);
  }
}
