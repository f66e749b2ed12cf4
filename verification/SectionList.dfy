/** The section list of a BFD (Software/bfd.h): an intrusive doubly linked list whose nodes keep
    their old links after removal, and the constant-time test that reads them. */
module SectionList {

  class Section {
    var next: Section?
    var prev: Section?

    constructor ()
      ensures next == null && prev == null
    {
      next, prev := null, null;
    }
  }

  // ---------------------------------------------------------------- lists and pointer states

  ghost predicate Distinct(list: seq<Section>) {
    forall i, j :: 0 <= i < j < |list| ==> list[i] != list[j]
  }

  /** The section at an index, or null off either end. */
  ghost function At(list: seq<Section>, i: int): Section? {
    if 0 <= i < |list| then list[i] else null
  }

  /** All the pointers there are: the owner's two ends and every section's links. */
  datatype Links = Links(first: Section?, last: Section?, next: map<Section, Section?>, prev: map<Section, Section?>)

  /** The links of the section at index `i` are its neighbours. */
  ghost predicate LinkedAt(l: Links, list: seq<Section>, i: int)
    requires 0 <= i < |list| && list[i] in l.next && list[i] in l.prev
  {
    l.next[list[i]] == At(list, i + 1) && l.prev[list[i]] == At(list, i - 1)
  }

  /** Exactly `list` is linked, from end to end. */
  ghost predicate Linked(l: Links, list: seq<Section>) {
    && (forall s :: s in list ==> s in l.next && s in l.prev)
    && l.first == At(list, 0) && l.last == At(list, |list| - 1)
    && (forall i :: 0 <= i < |list| ==> LinkedAt(l, list, i))
  }

  /** Every section that is not in `list` has the same pointers in both states. */
  ghost predicate SameOutside(before: Links, after: Links, list: seq<Section>) {
    && after.next.Keys == before.next.Keys && after.prev.Keys == before.prev.Keys
    && (forall s :: s in before.next && s !in list ==> after.next[s] == before.next[s])
    && (forall s :: s in before.prev && s !in list ==> after.prev[s] == before.prev[s])
  }

  /** `after` is the pointer state in which exactly `list` is linked, and every section that is
      not in it has the pointers it had in `before`. */
  ghost predicate Relinked(before: Links, after: Links, list: seq<Section>) {
    Linked(after, list) && SameOutside(before, after, list)
  }

  /** There is only one such state. */
  lemma RelinkedOnce(before: Links, after: Links, after': Links, list: seq<Section>)
    requires Relinked(before, after, list) && Relinked(before, after', list)
    ensures after == after'
  {
    forall s | s in after.next
      ensures after.next[s] == after'.next[s]
    {
      if s in list {
        var i :| 0 <= i < |list| && list[i] == s;
        assert LinkedAt(after, list, i) && LinkedAt(after', list, i);
      }
    }
    forall s | s in after.prev
      ensures after.prev[s] == after'.prev[s]
    {
      if s in list {
        var i :| 0 <= i < |list| && list[i] == s;
        assert LinkedAt(after, list, i) && LinkedAt(after', list, i);
      }
    }
    assert after.next == after'.next && after.prev == after'.prev;
  }

  ghost function Position(list: seq<Section>, s: Section): (i: nat)
    requires s in list
    ensures i < |list| && list[i] == s
  {
    var i :| 0 <= i < |list| && list[i] == s;
    i
  }

  /** And there always is one. */
  ghost function Relink(before: Links, list: seq<Section>): (after: Links)
    requires Distinct(list)
    requires forall s :: s in list ==> s in before.next && s in before.prev
    ensures Relinked(before, after, list)
  {
    var after := Links(At(list, 0), At(list, |list| - 1), map s | s in before.next :: NextIn(before, list, s),
                       map s | s in before.prev :: PrevIn(before, list, s));
    assert forall i :: 0 <= i < |list| ==> LinkedAt(after, list, i) by {
      forall i | 0 <= i < |list|
        ensures LinkedAt(after, list, i)
      {
        assert Position(list, list[i]) == i;
      }
    }
    after
  }

  ghost function NextIn(before: Links, list: seq<Section>, s: Section): Section?
    requires s in before.next
  {
    if s in list then At(list, Position(list, s) + 1) else before.next[s]
  }

  ghost function PrevIn(before: Links, list: seq<Section>, s: Section): Section?
    requires s in before.prev
  {
    if s in list then At(list, Position(list, s) - 1) else before.prev[s]
  }

  // ---------------------------------------------------------------- the removal test

  /** `bfd_section_removed_from_list`. */
  ghost predicate Removed(l: Links, s: Section)
    requires s in l.next && forall t :: t in l.next && l.next[t] != null ==> l.next[t] in l.prev
  {
    if l.next[s] == null then l.last != s else l.prev[l.next[s]] != s
  }

  /** A pointer state of a run: `list` is linked, pointers stay within the universe, and no two
      sections outside the list point at each other with stale links. */
  ghost predicate Sound(l: Links, list: seq<Section>) {
    && Distinct(list)
    && l.prev.Keys == l.next.Keys
    && Relinked(l, l, list)
    && (forall s :: s in l.next && l.next[s] != null ==> l.next[s] in l.next)
    && (forall s :: s in l.next && s !in list && l.next[s] != null ==> l.prev[l.next[s]] != s)
  }

  /** In every such state the test is exact, for members and for sections removed long ago. */
  lemma RemovedExactly(l: Links, list: seq<Section>, s: Section)
    requires Sound(l, list) && s in l.next
    ensures Removed(l, s) <==> s !in list
  {
    if s in list {
      var i: int := Position(list, s);
      assert LinkedAt(l, list, i);
      if i + 1 < |list| {
        assert LinkedAt(l, list, i + 1);
      }
    }
  }

  // ---------------------------------------------------------------- operations and runs

  datatype Op = Append(s: Section) | Prepend(s: Section)
    | InsertAfter(a: Section, s: Section) | InsertBefore(b: Section, s: Section) | Remove(s: Section)

  /** What the macros ask of their caller: insert absent sections next to present ones, remove
      present ones. */
  ghost predicate Legal(list: seq<Section>, op: Op) {
    match op
    case Append(s) => s !in list
    case Prepend(s) => s !in list
    case InsertAfter(a, s) => a in list && s !in list
    case InsertBefore(b, s) => b in list && s !in list
    case Remove(s) => s in list
  }

  ghost function InsertAt(list: seq<Section>, i: nat, s: Section): seq<Section>
    requires i <= |list|
  {
    list[..i] + [s] + list[i..]
  }

  ghost function RemoveAt(list: seq<Section>, i: nat): seq<Section>
    requires i < |list|
  {
    list[..i] + list[i + 1..]
  }

  ghost function Apply(list: seq<Section>, op: Op): seq<Section>
    requires Legal(list, op)
  {
    match op
    case Append(s) => list + [s]
    case Prepend(s) => [s] + list
    case InsertAfter(a, s) => InsertAt(list, Position(list, a) + 1, s)
    case InsertBefore(b, s) => InsertAt(list, Position(list, b), s)
    case Remove(s) => RemoveAt(list, Position(list, s))
  }

  /** Whatever is done to the list, one section enters it or one leaves it, and no two sections
      are ever in it twice. */
  lemma ApplyMembers(list: seq<Section>, op: Op)
    requires Distinct(list) && Legal(list, op)
    ensures Distinct(Apply(list, op))
    ensures forall t :: t in Apply(list, op) <==> if t == op.s then !op.Remove? else t in list
  {
    match op
    case Append(s) =>
    case Prepend(s) =>
    case InsertAfter(a, s) => InsertMembers(list, Position(list, a) + 1, s);
    case InsertBefore(b, s) => InsertMembers(list, Position(list, b), s);
    case Remove(s) => RemoveMembers(list, Position(list, s));
  }

  lemma InsertMembers(list: seq<Section>, i: nat, s: Section)
    requires Distinct(list) && i <= |list| && s !in list
    ensures Distinct(InsertAt(list, i, s))
    ensures forall t :: t in InsertAt(list, i, s) <==> t == s || t in list
  {
    assert list == list[..i] + list[i..];
  }

  lemma RemoveMembers(list: seq<Section>, i: nat)
    requires Distinct(list) && i < |list|
    ensures Distinct(RemoveAt(list, i))
    ensures forall t :: t in RemoveAt(list, i) <==> t != list[i] && t in list
  {
    assert list == list[..i] + [list[i]] + list[i + 1..];
  }

  lemma SuccessorInList(l: Links, list: seq<Section>, s: Section)
    requires Sound(l, list) && s in list && l.next[s] != null
    ensures l.next[s] in list && l.next[s] != s
  {
    var i: int := Position(list, s);
    assert LinkedAt(l, list, i);
  }

  /** Relinking the list after an operation keeps the stale links harmless. */
  lemma NoStalePair(l: Links, list: seq<Section>, op: Op, l': Links, s: Section)
    requires Sound(l, list) && Legal(list, op) && op.s in l.next
    requires Relinked(l, l', Apply(list, op))
    requires s in l'.next && l'.next[s] != null
    ensures l'.next[s] in l'.next
    ensures s !in Apply(list, op) ==> l'.prev[l'.next[s]] != s
  {
    var list' := Apply(list, op);
    ApplyMembers(list, op);
    if s in list' {
      var i: int := Position(list', s);
      assert LinkedAt(l', list', i);
    } else {
      var n := l.next[s];
      assert l'.next[s] == n;
      if s in list {
        SuccessorInList(l, list, s);
      }
      if n in list' {
        var i: int := Position(list', n);
        assert LinkedAt(l', list', i);
      } else {
        assert l'.prev[n] == l.prev[n];
      }
    }
  }

  lemma StepKeepsSound(l: Links, list: seq<Section>, op: Op)
    requires Sound(l, list) && Legal(list, op) && op.s in l.next
    ensures Distinct(Apply(list, op)) && forall s :: s in Apply(list, op) ==> s in l.next && s in l.prev
    ensures Sound(Relink(l, Apply(list, op)), Apply(list, op))
  {
    var list' := Apply(list, op);
    ApplyMembers(list, op);
    assert forall s :: s in list ==> s in l.next;
    var l' := Relink(l, list');
    forall s | s in l'.next && l'.next[s] != null
      ensures l'.next[s] in l'.next
      ensures s !in list' ==> l'.prev[l'.next[s]] != s
    {
      NoStalePair(l, list, op, l', s);
    }
  }

  /** The pointers after one operation. */
  ghost function Step(l: Links, list: seq<Section>, op: Op): (l': Links)
    requires Sound(l, list) && Legal(list, op) && op.s in l.next
  {
    StepKeepsSound(l, list, op);
    Relink(l, Apply(list, op))
  }

  lemma StepSound(l: Links, list: seq<Section>, op: Op)
    requires Sound(l, list) && Legal(list, op) && op.s in l.next
    ensures Sound(Step(l, list, op), Apply(list, op)) && Relinked(l, Step(l, list, op), Apply(list, op))
  {
    StepKeepsSound(l, list, op);
  }

  /** A run of operations, each legal when it happens. */
  ghost predicate LegalRun(list: seq<Section>, ops: seq<Op>)
    decreases |ops|
  {
    ops == [] || (Legal(list, ops[0]) && LegalRun(Apply(list, ops[0]), ops[1..]))
  }

  ghost function ApplyAll(list: seq<Section>, ops: seq<Op>): seq<Section>
    requires LegalRun(list, ops)
    decreases |ops|
  {
    if ops == [] then list else ApplyAll(Apply(list, ops[0]), ops[1..])
  }

  ghost predicate Within(l: Links, ops: seq<Op>) {
    forall op :: op in ops ==> op.s in l.next
  }

  /** The pointers after a run from a sound state. */
  ghost function RunLinks(l: Links, list: seq<Section>, ops: seq<Op>): Links
    requires Sound(l, list) && LegalRun(list, ops) && Within(l, ops)
    decreases |ops|
  {
    if ops == [] then l
    else
      StepSound(l, list, ops[0]);
      RunLinks(Step(l, list, ops[0]), Apply(list, ops[0]), ops[1..])
  }

  /** Over every run of insertions and removals, in any interleaving and with re-insertions, the
      state stays sound and the test says of every section exactly whether it is in the list. */
  lemma {:induction false} RunsExact(l: Links, list: seq<Section>, ops: seq<Op>)
    requires Sound(l, list) && LegalRun(list, ops) && Within(l, ops)
    ensures var l', list' := RunLinks(l, list, ops), ApplyAll(list, ops);
            && Sound(l', list') && l'.next.Keys == l.next.Keys
            && forall s :: s in l'.next ==> (Removed(l', s) <==> s !in list')
    decreases |ops|
  {
    if ops == [] {
      forall s | s in l.next
        ensures Removed(l, s) <==> s !in list
      {
        RemovedExactly(l, list, s);
      }
    } else {
      StepSound(l, list, ops[0]);
      RunsExact(Step(l, list, ops[0]), Apply(list, ops[0]), ops[1..]);
    }
  }

  // ---------------------------------------------------------------- laws between the operations

  /** Inserting a section, in any of the four ways, and removing it again restores both ends and
      the links of every other section. */
  lemma InsertThenRemove(l: Links, list: seq<Section>, op: Op)
    requires Sound(l, list) && Legal(list, op) && op.s in l.next && !op.Remove?
    ensures op.s in Apply(list, op) && Apply(Apply(list, op), Remove(op.s)) == list
    ensures Sound(Step(l, list, op), Apply(list, op)) && op.s in Step(l, list, op).next
    ensures var l' := Step(Step(l, list, op), Apply(list, op), Remove(op.s));
            SameExcept(l, l', op.s)
  {
    StepSound(l, list, op);
    InsertedPosition(list, op);
    ApplyMembers(list, op);
    var l1 := Step(l, list, op);
    StepSound(l1, Apply(list, op), Remove(op.s));
    var l2 := Step(l1, Apply(list, op), Remove(op.s));
    Restored(l, l1, l2, list, Apply(list, op), op.s);
  }

  lemma Restored(l: Links, l1: Links, l2: Links, list: seq<Section>, list1: seq<Section>, s: Section)
    requires Relinked(l, l, list) && Relinked(l, l1, list1) && Relinked(l1, l2, list)
    requires l.next.Keys == l.prev.Keys && forall t :: t in list1 && t != s ==> t in list
    ensures SameExcept(l, l2, s)
  {
    forall t | t in l.next && t != s
      ensures l2.next[t] == l.next[t] && l2.prev[t] == l.prev[t]
    {
      TwoSteps(l, l1, l2, list, list1, t);
    }
  }

  /** Both ends and the links of every section but `s` are the same. */
  ghost predicate SameExcept(l: Links, l': Links, s: Section) {
    && l'.first == l.first && l'.last == l.last
    && l'.next.Keys == l.next.Keys && l'.prev.Keys == l.prev.Keys
    && (forall t :: t in l.next && t != s ==> l'.next[t] == l.next[t])
    && (forall t :: t in l.prev && t != s ==> l'.prev[t] == l.prev[t])
  }

  lemma TwoSteps(l: Links, l1: Links, l2: Links, list: seq<Section>, list1: seq<Section>, t: Section)
    requires Relinked(l, l, list) && Relinked(l, l1, list1) && Relinked(l1, l2, list)
    requires t in l.next && t in l.prev && (t in list1 ==> t in list)
    ensures t in l2.next && t in l2.prev && l2.next[t] == l.next[t] && l2.prev[t] == l.prev[t]
  {
    if t in list {
      LinksOfMember(l, l, list, t);
      LinksOfMember(l1, l2, list, t);
    }
  }

  lemma LinksOfMember(before: Links, l: Links, list: seq<Section>, t: Section)
    requires Relinked(before, l, list) && t in list
    ensures l.next[t] == At(list, Position(list, t) + 1) && l.prev[t] == At(list, Position(list, t) - 1)
  {
    var i: int := Position(list, t);
    assert LinkedAt(l, list, i);
  }

  lemma PositionOf(list: seq<Section>, i: nat)
    requires Distinct(list) && i < |list|
    ensures Position(list, list[i]) == i
  {
  }

  lemma RemoveInserted(list: seq<Section>, i: nat, s: Section)
    requires Distinct(list) && s !in list && i <= |list|
    ensures s in InsertAt(list, i, s) && Position(InsertAt(list, i, s), s) == i
    ensures RemoveAt(InsertAt(list, i, s), i) == list
  {
    InsertMembers(list, i, s);
    assert InsertAt(list, i, s)[i] == s;
    PositionOf(InsertAt(list, i, s), i);
    assert list == list[..i] + list[i..];
  }

  /** Appending and prepending are insertions at the ends. */
  lemma EndInsertions(list: seq<Section>, s: Section)
    ensures list + [s] == InsertAt(list, |list|, s) && [s] + list == InsertAt(list, 0, s)
  {
  }

  /** Where an insertion puts its section. */
  lemma InsertedPosition(list: seq<Section>, op: Op)
    requires Distinct(list) && Legal(list, op) && !op.Remove?
    ensures op.s in Apply(list, op)
    ensures RemoveAt(Apply(list, op), Position(Apply(list, op), op.s)) == list
  {
    EndInsertions(list, op.s);
    match op
    case Append(s) => RemoveInserted(list, |list|, s);
    case Prepend(s) => RemoveInserted(list, 0, s);
    case InsertAfter(a, s) => RemoveInserted(list, Position(list, a) + 1, s);
    case InsertBefore(b, s) => RemoveInserted(list, Position(list, b), s);
  }

  /** Removing a section that has a predecessor and inserting it after that predecessor restores
      the whole pointer state. */
  lemma RemoveThenInsert(l: Links, list: seq<Section>, i: nat)
    requires Sound(l, list) && 0 < i < |list|
    ensures var remove, insert := Remove(list[i]), InsertAfter(list[i - 1], list[i]);
            && Legal(Apply(list, remove), insert) && list[i] in l.next
            && Apply(Apply(list, remove), insert) == list
            && Sound(Step(l, list, remove), Apply(list, remove)) && list[i] in Step(l, list, remove).next
            && Step(Step(l, list, remove), Apply(list, remove), insert) == l
  {
    var remove, insert := Remove(list[i]), InsertAfter(list[i - 1], list[i]);
    var list1 := RemoveAt(list, i);
    BackInPlace(list, i);
    StepSound(l, list, remove);
    var l1 := Step(l, list, remove);
    StepSound(l1, list1, insert);
    var l2 := Step(l1, list1, insert);
    Forget(l, l1, l2, list1, list);
    RelinkedOnce(l, l, l2, list);
  }

  lemma BackInPlace(list: seq<Section>, i: nat)
    requires Distinct(list) && 0 < i < |list|
    ensures var remove, insert := Remove(list[i]), InsertAfter(list[i - 1], list[i]);
            && Apply(list, remove) == RemoveAt(list, i) && Legal(RemoveAt(list, i), insert)
            && Apply(RemoveAt(list, i), insert) == list
    ensures forall t :: t in RemoveAt(list, i) ==> t in list
  {
    var list1 := RemoveAt(list, i);
    PositionOf(list, i);
    RemoveMembers(list, i);
    assert list1[i - 1] == list[i - 1];
    PositionOf(list1, i - 1);
    assert InsertAt(list1, i, list[i]) == list;
  }

  /** Relinking twice is relinking once, if the second list has all sections of the first. */
  lemma Forget(l: Links, l1: Links, l2: Links, list1: seq<Section>, list2: seq<Section>)
    requires Relinked(l, l1, list1) && Relinked(l1, l2, list2)
    requires forall t :: t in list1 ==> t in list2
    ensures Relinked(l, l2, list2)
  {
  }

  /** Appending is inserting after the last section, prepending is inserting before the first, and
      inserting before a section is inserting after its predecessor or prepending: pointer for
      pointer, because the relinked state is a function of the list. */
  lemma SameOperation(l: Links, list: seq<Section>, s: Section, i: nat)
    requires Sound(l, list) && s in l.next && s !in list && i < |list|
    ensures Step(l, list, Append(s)) == Step(l, list, InsertAfter(list[|list| - 1], s))
    ensures Step(l, list, Prepend(s)) == Step(l, list, InsertBefore(list[0], s))
    ensures Step(l, list, InsertBefore(list[i], s)) ==
            if i == 0 then Step(l, list, Prepend(s)) else Step(l, list, InsertAfter(list[i - 1], s))
  {
    SameList(list, s, i);
  }

  lemma SameList(list: seq<Section>, s: Section, i: nat)
    requires Distinct(list) && s !in list && i < |list|
    ensures Apply(list, Append(s)) == Apply(list, InsertAfter(list[|list| - 1], s))
    ensures Apply(list, Prepend(s)) == Apply(list, InsertBefore(list[0], s))
    ensures Apply(list, InsertBefore(list[i], s)) ==
            if i == 0 then Apply(list, Prepend(s)) else Apply(list, InsertAfter(list[i - 1], s))
  {
    PositionOf(list, |list| - 1);
    PositionOf(list, 0);
    PositionOf(list, i);
    EndInsertions(list, s);
    if i > 0 {
      PositionOf(list, i - 1);
    }
  }

  // ---------------------------------------------------------------- pointer assignments

  ghost function Set(m: map<Section, Section?>, at: Section?, value: Section?): map<Section, Section?> {
    if at == null then m else m[at := value]
  }

  /** `after` is `before` with `s` linked in between sections `p` and `n`, either of which may be
      missing. */
  ghost predicate LinkedIn(before: Links, after: Links, p: Section?, n: Section?, s: Section) {
    && after.next == Set(before.next[s := n], p, s) && after.prev == Set(before.prev[s := p], n, s)
    && after.first == (if p == null then s else before.first)
    && after.last == (if n == null then s else before.last)
  }

  /** `after` is `before` with sections `p` and `n` linked to each other. */
  ghost predicate LinkedOver(before: Links, after: Links, p: Section?, n: Section?) {
    && after.next == Set(before.next, p, n) && after.prev == Set(before.prev, n, p)
    && after.first == (if p == null then n else before.first)
    && after.last == (if n == null then p else before.last)
  }

  /** `LinkedIn`, section by section. */
  lemma EachLinkedIn(before: Links, after: Links, p: Section?, n: Section?, s: Section)
    requires after.next.Keys == before.next.Keys && after.prev.Keys == before.prev.Keys
    requires s in before.next && s in before.prev
    requires (p == null || p in before.next) && (n == null || n in before.prev)
    requires after.first == (if p == null then s else before.first)
    requires after.last == if n == null then s else before.last
    requires forall t :: t in after.next ==>
               after.next[t] == if t == p then s else if t == s then n else before.next[t]
    requires forall t :: t in after.prev ==>
               after.prev[t] == if t == n then s else if t == s then p else before.prev[t]
    ensures LinkedIn(before, after, p, n, s)
  {
    assert after.next == Set(before.next[s := n], p, s);
    assert after.prev == Set(before.prev[s := p], n, s);
  }

  lemma InsertedAt(list: seq<Section>, i: int, s: Section, k: int)
    requires 0 <= i <= |list|
    ensures At(InsertAt(list, i, s), k) == if k < i then At(list, k) else if k == i then s else At(list, k - 1)
  {
  }

  lemma DifferentAt(list: seq<Section>, j: int, k: int)
    requires Distinct(list) && 0 <= j < |list| && j != k
    ensures list[j] != At(list, k)
  {
  }

  lemma LinkedInAt(before: Links, after: Links, list: seq<Section>, i: int, s: Section, k: int)
    requires Sound(before, list) && s in before.next && s !in list && 0 <= i <= |list|
    requires LinkedIn(before, after, At(list, i - 1), At(list, i), s)
    requires 0 <= k <= |list|
    ensures var t := InsertAt(list, i, s)[k];
            t in after.next && t in after.prev && LinkedAt(after, InsertAt(list, i, s), k)
  {
    InsertedAt(list, i, s, k);
    InsertedAt(list, i, s, k + 1);
    InsertedAt(list, i, s, k - 1);
    if k != i {
      MemberLinkedIn(before, after, list, i, s, if k < i then k else k - 1);
    }
  }

  /** The links of a member after the insertion of `s` at index `i`. */
  lemma MemberLinkedIn(before: Links, after: Links, list: seq<Section>, i: int, s: Section, j: int)
    requires Sound(before, list) && s in before.next && s !in list && 0 <= i <= |list|
    requires LinkedIn(before, after, At(list, i - 1), At(list, i), s)
    requires 0 <= j < |list|
    ensures list[j] in after.next && after.next[list[j]] == if j == i - 1 then s else At(list, j + 1)
    ensures list[j] in after.prev && after.prev[list[j]] == if j == i then s else At(list, j - 1)
  {
    assert LinkedAt(before, list, j);
    if j != i - 1 {
      DifferentAt(list, j, i - 1);
    }
    if j != i {
      DifferentAt(list, j, i);
    }
  }

  /** A neighbour that exists is a member, and so among the sections there are. */
  lemma MemberAt(l: Links, list: seq<Section>, k: int)
    requires Sound(l, list)
    ensures At(list, k) == null || (At(list, k) in list && At(list, k) in l.next && At(list, k) in l.prev)
  {
  }

  lemma SetKeys(m: map<Section, Section?>, at: Section?, value: Section?)
    requires at == null || at in m
    ensures Set(m, at, value).Keys == m.Keys
  {
  }

  lemma LinkedInKeys(before: Links, after: Links, p: Section?, n: Section?, s: Section)
    requires LinkedIn(before, after, p, n, s) && s in before.next && s in before.prev
    requires (p == null || p in before.next) && (n == null || n in before.prev)
    ensures after.next.Keys == before.next.Keys && after.prev.Keys == before.prev.Keys
  {
    SetKeys(before.next[s := n], p, s);
    SetKeys(before.prev[s := p], n, s);
  }

  lemma LinkedInOther(before: Links, after: Links, p: Section?, n: Section?, s: Section, t: Section)
    requires LinkedIn(before, after, p, n, s) && t != s && t != p && t != n
    ensures t in before.next ==> t in after.next && after.next[t] == before.next[t]
    ensures t in before.prev ==> t in after.prev && after.prev[t] == before.prev[t]
  {
  }

  lemma LinkedInEnds(before: Links, after: Links, list: seq<Section>, i: int, s: Section)
    requires before.first == At(list, 0) && before.last == At(list, |list| - 1) && 0 <= i <= |list|
    requires LinkedIn(before, after, At(list, i - 1), At(list, i), s)
    ensures after.first == At(InsertAt(list, i, s), 0) && after.last == At(InsertAt(list, i, s), |list|)
  {
    InsertedAt(list, i, s, 0);
    InsertedAt(list, i, s, |list|);
  }

  lemma LinkedInRest(before: Links, after: Links, list: seq<Section>, i: int, s: Section)
    requires Sound(before, list) && s in before.next && 0 <= i <= |list|
    requires LinkedIn(before, after, At(list, i - 1), At(list, i), s)
    ensures after.next.Keys == before.next.Keys && after.prev.Keys == before.prev.Keys
    ensures forall t :: t in before.next && t != s && t !in list ==> after.next[t] == before.next[t]
    ensures forall t :: t in before.prev && t != s && t !in list ==> after.prev[t] == before.prev[t]
  {
    var p, n := At(list, i - 1), At(list, i);
    MemberAt(before, list, i - 1);
    MemberAt(before, list, i);
    LinkedInKeys(before, after, p, n, s);
    forall t | t in before.next && t != s && t !in list
      ensures after.next[t] == before.next[t] && after.prev[t] == before.prev[t]
    {
      LinkedInOther(before, after, p, n, s, t);
    }
  }

  lemma LinkedInLinked(before: Links, after: Links, list: seq<Section>, i: int, s: Section)
    requires Sound(before, list) && s in before.next && s !in list && 0 <= i <= |list|
    requires LinkedIn(before, after, At(list, i - 1), At(list, i), s)
    ensures Linked(after, InsertAt(list, i, s))
  {
    InsertMembers(list, i, s);
    LinkedInEnds(before, after, list, i, s);
    AllLinkedIn(before, after, list, i, s);
  }

  lemma AllLinkedIn(before: Links, after: Links, list: seq<Section>, i: int, s: Section)
    requires Sound(before, list) && s in before.next && s !in list && 0 <= i <= |list|
    requires LinkedIn(before, after, At(list, i - 1), At(list, i), s)
    ensures var list' := InsertAt(list, i, s);
            forall k :: 0 <= k < |list'| ==>
              list'[k] in after.next && list'[k] in after.prev && LinkedAt(after, list', k)
  {
    forall k | 0 <= k < |InsertAt(list, i, s)|
      ensures var list' := InsertAt(list, i, s);
              list'[k] in after.next && list'[k] in after.prev && LinkedAt(after, list', k)
    {
      LinkedInAt(before, after, list, i, s, k);
    }
  }

  lemma LinkedInRelinks(before: Links, after: Links, list: seq<Section>, i: int, s: Section)
    requires Sound(before, list) && s in before.next && s !in list && 0 <= i <= |list|
    requires LinkedIn(before, after, At(list, i - 1), At(list, i), s)
    ensures Relinked(before, after, InsertAt(list, i, s))
  {
    InsertMembers(list, i, s);
    LinkedInRest(before, after, list, i, s);
    LinkedInLinked(before, after, list, i, s);
  }

  lemma LinkedOverAt(before: Links, after: Links, list: seq<Section>, i: int, k: int)
    requires Sound(before, list) && 0 <= i < |list|
    requires LinkedOver(before, after, At(list, i - 1), At(list, i + 1))
    requires 0 <= k < |list| - 1
    ensures var t := RemoveAt(list, i)[k];
            t in after.next && t in after.prev && LinkedAt(after, RemoveAt(list, i), k)
  {
    assert LinkedAt(before, list, if k < i then k else k + 1);
  }

  lemma LinkedOverKeys(before: Links, after: Links, p: Section?, n: Section?)
    requires LinkedOver(before, after, p, n)
    requires (p == null || p in before.next) && (n == null || n in before.prev)
    ensures after.next.Keys == before.next.Keys && after.prev.Keys == before.prev.Keys
  {
    SetKeys(before.next, p, n);
    SetKeys(before.prev, n, p);
  }

  lemma LinkedOverOther(before: Links, after: Links, p: Section?, n: Section?, t: Section)
    requires LinkedOver(before, after, p, n) && t != p && t != n
    ensures t in before.next ==> t in after.next && after.next[t] == before.next[t]
    ensures t in before.prev ==> t in after.prev && after.prev[t] == before.prev[t]
  {
  }

  lemma LinkedOverRest(before: Links, after: Links, list: seq<Section>, i: int)
    requires Sound(before, list) && 0 <= i < |list|
    requires LinkedOver(before, after, At(list, i - 1), At(list, i + 1))
    ensures after.next.Keys == before.next.Keys && after.prev.Keys == before.prev.Keys
    ensures forall t :: t in before.next && (t !in list || t == list[i]) ==> after.next[t] == before.next[t]
    ensures forall t :: t in before.prev && (t !in list || t == list[i]) ==> after.prev[t] == before.prev[t]
  {
    var p, n := At(list, i - 1), At(list, i + 1);
    MemberAt(before, list, i - 1);
    MemberAt(before, list, i + 1);
    DifferentAt(list, i, i - 1);
    DifferentAt(list, i, i + 1);
    LinkedOverKeys(before, after, p, n);
    forall t | t in before.next && (t !in list || t == list[i])
      ensures after.next[t] == before.next[t] && after.prev[t] == before.prev[t]
    {
      LinkedOverOther(before, after, p, n, t);
    }
  }

  lemma RemovedAt(list: seq<Section>, i: int, k: int)
    requires 0 <= i < |list|
    ensures At(RemoveAt(list, i), k) == if k < i then At(list, k) else At(list, k + 1)
  {
  }

  lemma LinkedOverEnds(before: Links, after: Links, list: seq<Section>, i: int)
    requires before.first == At(list, 0) && before.last == At(list, |list| - 1) && 0 <= i < |list|
    requires LinkedOver(before, after, At(list, i - 1), At(list, i + 1))
    ensures after.first == At(RemoveAt(list, i), 0) && after.last == At(RemoveAt(list, i), |list| - 2)
  {
    RemovedAt(list, i, 0);
    RemovedAt(list, i, |list| - 2);
  }

  lemma LinkedOverLinked(before: Links, after: Links, list: seq<Section>, i: int)
    requires Sound(before, list) && 0 <= i < |list|
    requires LinkedOver(before, after, At(list, i - 1), At(list, i + 1))
    ensures Linked(after, RemoveAt(list, i))
  {
    var list' := RemoveAt(list, i);
    LinkedOverEnds(before, after, list, i);
    forall k | 0 <= k < |list'|
      ensures list'[k] in after.next && list'[k] in after.prev && LinkedAt(after, list', k)
    {
      LinkedOverAt(before, after, list, i, k);
    }
  }

  lemma LinkedOverRelinks(before: Links, after: Links, list: seq<Section>, i: int)
    requires Sound(before, list) && 0 <= i < |list|
    requires LinkedOver(before, after, At(list, i - 1), At(list, i + 1))
    ensures Relinked(before, after, RemoveAt(list, i))
  {
    RemoveMembers(list, i);
    LinkedOverRest(before, after, list, i);
    LinkedOverLinked(before, after, list, i);
  }

  /** The sections an operation works between. */
  ghost function Before(list: seq<Section>, op: Op): Section?
    requires Legal(list, op)
  {
    match op
    case Append(_) => At(list, |list| - 1)
    case Prepend(_) => null
    case InsertAfter(a, _) => a
    case InsertBefore(b, _) => At(list, Position(list, b) - 1)
    case Remove(s) => At(list, Position(list, s) - 1)
  }

  ghost function After(list: seq<Section>, op: Op): Section?
    requires Legal(list, op)
  {
    match op
    case Append(_) => null
    case Prepend(_) => At(list, 0)
    case InsertAfter(a, _) => At(list, Position(list, a) + 1)
    case InsertBefore(b, _) => b
    case Remove(s) => At(list, Position(list, s) + 1)
  }

  /** Those sections are members of the list. */
  lemma NeighboursInList(l: Links, list: seq<Section>, op: Op)
    requires Sound(l, list) && Legal(list, op)
    ensures Before(list, op) == null || (Before(list, op) in list && Before(list, op) in l.next)
    ensures After(list, op) == null || (After(list, op) in list && After(list, op) in l.next)
  {
    match op
    case Append(_) => MemberAt(l, list, |list| - 1);
    case Prepend(_) => MemberAt(l, list, 0);
    case InsertAfter(a, _) =>
      MemberAt(l, list, Position(list, a));
      MemberAt(l, list, Position(list, a) + 1);
    case InsertBefore(b, _) =>
      MemberAt(l, list, Position(list, b));
      MemberAt(l, list, Position(list, b) - 1);
    case Remove(s) =>
      MemberAt(l, list, Position(list, s) + 1);
      MemberAt(l, list, Position(list, s) - 1);
  }

  /** The macros find them in the ends of the list and the links of its members. */
  lemma NeighboursLinked(l: Links, list: seq<Section>, op: Op)
    requires Relinked(l, l, list) && Legal(list, op)
    ensures op.Append? ==> l.last == Before(list, op)
    ensures op.Prepend? ==> l.first == After(list, op)
    ensures op.InsertAfter? ==> op.a in l.next && l.next[op.a] == After(list, op)
    ensures op.InsertBefore? ==> op.b in l.prev && l.prev[op.b] == Before(list, op)
    ensures op.Remove? ==> op.s in l.next && op.s in l.prev
    ensures op.Remove? ==> l.next[op.s] == After(list, op) && l.prev[op.s] == Before(list, op)
  {
    match op
    case Append(_) =>
    case Prepend(_) =>
    case InsertAfter(a, _) => LinksOfMember(l, l, list, a);
    case InsertBefore(b, _) => LinksOfMember(l, l, list, b);
    case Remove(s) => LinksOfMember(l, l, list, s);
  }

  /** The index at which an insertion puts its section. */
  ghost function Place(list: seq<Section>, op: Op): (i: nat)
    requires Legal(list, op) && !op.Remove?
    ensures i <= |list|
  {
    match op
    case Append(_) => |list|
    case Prepend(_) => 0
    case InsertAfter(a, _) => Position(list, a) + 1
    case InsertBefore(b, _) => Position(list, b)
  }

  lemma AroundPlace(list: seq<Section>, op: Op)
    requires Legal(list, op) && !op.Remove?
    ensures Apply(list, op) == InsertAt(list, Place(list, op), op.s)
    ensures Before(list, op) == At(list, Place(list, op) - 1) && After(list, op) == At(list, Place(list, op))
  {
    EndInsertions(list, op.s);
  }

  /** From the pointers an operation leaves to the list they link. */
  lemma CallRelinks(before: Links, list: seq<Section>, op: Op, after: Links)
    requires Sound(before, list) && Legal(list, op) && op.s in before.next
    requires if op.Remove? then LinkedOver(before, after, Before(list, op), After(list, op))
             else LinkedIn(before, after, Before(list, op), After(list, op), op.s)
    ensures Relinked(before, after, Apply(list, op))
  {
    if op.Remove? {
      RemoveRelinks(before, list, op, after);
    } else {
      InsertRelinks(before, list, op, after);
    }
  }

  lemma RemoveRelinks(before: Links, list: seq<Section>, op: Op, after: Links)
    requires Sound(before, list) && Legal(list, op) && op.Remove?
    requires LinkedOver(before, after, Before(list, op), After(list, op))
    ensures Relinked(before, after, Apply(list, op))
  {
    LinkedOverRelinks(before, after, list, Position(list, op.s));
  }

  lemma InsertRelinks(before: Links, list: seq<Section>, op: Op, after: Links)
    requires Sound(before, list) && Legal(list, op) && op.s in before.next && !op.Remove?
    requires LinkedIn(before, after, Before(list, op), After(list, op), op.s)
    ensures Relinked(before, after, Apply(list, op))
  {
    AroundPlace(list, op);
    LinkedInRelinks(before, after, list, Place(list, op), op.s);
  }

  /** And from there to the one state the operation means. */
  lemma Conclude(before: Links, list: seq<Section>, op: Op, after: Links)
    requires Sound(before, list) && Legal(list, op) && op.s in before.next
    requires Relinked(before, after, Apply(list, op))
    ensures after == Step(before, list, op) && Sound(after, Apply(list, op))
  {
    StepSound(before, list, op);
    RelinkedOnce(before, after, Step(before, list, op), Apply(list, op));
  }

  lemma Admitted(l: Links, list: seq<Section>, s: Section, prev: Section?)
    requires Sound(l, list) && s !in l.next
    ensures Sound(Links(l.first, l.last, l.next[s := null], l.prev[s := prev]), list)
  {
    var l' := Links(l.first, l.last, l.next[s := null], l.prev[s := prev]);
    forall i | 0 <= i < |list|
      ensures list[i] in l'.next && LinkedAt(l', list, i)
    {
      assert LinkedAt(l, list, i);
    }
  }

  // ---------------------------------------------------------------- the macros on the heap

  class Bfd {
    var sections: Section?
    var sectionLast: Section?
    ghost var list: seq<Section>
    ghost var universe: set<Section>

    ghost function Snapshot(): (l: Links)
      reads this`sections, this`sectionLast, this`universe, universe
      ensures l.next.Keys == universe && l.prev.Keys == universe
    {
      Links(sections, sectionLast, map s | s in universe :: s.next, map s | s in universe :: s.prev)
    }

    ghost predicate Valid()
      reads this, universe
    {
      Sound(Snapshot(), list)
    }

    /** An empty list. */
    constructor ()
      ensures Valid() && list == [] && universe == {}
      ensures sections == null && sectionLast == null
    {
      sections, sectionLast, list, universe := null, null, [], {};
    }

    /** A section that was never in the list may be used with it if its `next` is NULL. */
    ghost method Admit(s: Section)
      requires Valid() && s !in universe && s.next == null
      modifies this`universe
      ensures Valid() && universe == old(universe) + {s}
    {
      ghost var before := Snapshot();
      universe := universe + {s};
      assert Snapshot() == Links(before.first, before.last, before.next[s := null], before.prev[s := s.prev]);
      Admitted(before, list, s, s.prev);
    }

    /** `bfd_section_removed_from_list`. */
    method RemovedFromList(s: Section) returns (removed: bool)
      requires Valid() && s in universe
      ensures removed <==> s !in list
    {
      assert s in Snapshot().next;
      RemovedExactly(Snapshot(), list, s);
      if s.next == null {
        removed := sectionLast != s;
      } else {
        assert Snapshot().next[s] in Snapshot().next;
        removed := s.next.prev != s;
      }
    }

    // The five macros. Each is proved to change exactly the pointers that put a section between
    // two neighbours or take one out; `Perform` says what that does to the list.

    method Append(s: Section)
      requires s in universe && (sectionLast == null || sectionLast in universe) && sectionLast != s
      modifies this`sections, this`sectionLast, s, sectionLast
      ensures LinkedIn(old(Snapshot()), Snapshot(), old(sectionLast), null, s)
    {
      ghost var before := Snapshot();
      s.next := null;
      if sectionLast != null {
        s.prev := sectionLast;
        sectionLast.next := s;
      } else {
        s.prev := null;
        sections := s;
      }
      sectionLast := s;
      EachLinkedIn(before, Snapshot(), old(sectionLast), null, s);
    }

    method Prepend(s: Section)
      requires s in universe && (sections == null || sections in universe) && sections != s
      modifies this`sections, this`sectionLast, s, sections
      ensures LinkedIn(old(Snapshot()), Snapshot(), null, old(sections), s)
    {
      ghost var before := Snapshot();
      s.prev := null;
      if sections != null {
        s.next := sections;
        sections.prev := s;
      } else {
        s.next := null;
        sectionLast := s;
      }
      sections := s;
      EachLinkedIn(before, Snapshot(), null, old(sections), s);
    }

    method InsertAfter(a: Section, s: Section)
      requires a in universe && s in universe && a != s
      requires (a.next == null || a.next in universe) && a.next != s
      modifies this`sectionLast, a, s, a.next
      ensures LinkedIn(old(Snapshot()), Snapshot(), a, old(a.next), s)
    {
      ghost var before := Snapshot();
      var next := a.next;
      s.next := next;
      s.prev := a;
      a.next := s;
      if next != null {
        next.prev := s;
      } else {
        sectionLast := s;
      }
      EachLinkedIn(before, Snapshot(), a, old(a.next), s);
    }

    method InsertBefore(b: Section, s: Section)
      requires b in universe && s in universe && b != s
      requires (b.prev == null || b.prev in universe) && b.prev != s
      modifies this`sections, b, s, b.prev
      ensures LinkedIn(old(Snapshot()), Snapshot(), old(b.prev), b, s)
    {
      ghost var before := Snapshot();
      var prev := b.prev;
      s.prev := prev;
      s.next := b;
      b.prev := s;
      if prev != null {
        prev.next := s;
      } else {
        sections := s;
      }
      EachLinkedIn(before, Snapshot(), old(b.prev), b, s);
    }

    method Remove(s: Section)
      requires s in universe && (s.next == null || s.next in universe) && (s.prev == null || s.prev in universe)
      modifies this`sections, this`sectionLast, s.next, s.prev
      ensures LinkedOver(old(Snapshot()), Snapshot(), old(s.prev), old(s.next))
    {
      var next := s.next;
      var prev := s.prev;
      if prev != null {
        prev.next := next;
      } else {
        sections := next;
      }
      if next != null {
        next.prev := prev;
      } else {
        sectionLast := prev;
      }
    }

    /** The macro an operation stands for. */
    method Call(op: Op)
      requires Valid() && Legal(list, op) && op.s in universe
      modifies this`sections, this`sectionLast, universe
      ensures var p, n := Before(list, op), After(list, op);
              if op.Remove? then LinkedOver(old(Snapshot()), Snapshot(), p, n)
              else LinkedIn(old(Snapshot()), Snapshot(), p, n, op.s)
    {
      NeighboursInList(Snapshot(), list, op);
      NeighboursLinked(Snapshot(), list, op);
      match op {
        case Append(s) => Append(s);
        case Prepend(s) => Prepend(s);
        case InsertAfter(a, s) => InsertAfter(a, s);
        case InsertBefore(b, s) => InsertBefore(b, s);
        case Remove(s) => Remove(s);
      }
    }

    /** The pointers an operation leaves are those of the new list. */
    method CallExactly(op: Op)
      requires Valid() && Legal(list, op) && op.s in universe
      modifies this`sections, this`sectionLast, universe
      ensures Snapshot() == Step(old(Snapshot()), list, op) && Sound(Snapshot(), Apply(list, op))
    {
      ghost var before := Snapshot();
      Call(op);
      CallRelinks(before, list, op, Snapshot());
      Conclude(before, list, op, Snapshot());
    }

    /** Any of the macros, used as it may be: the list changes as specified, the pointers are those
        of the new list, and no pointer of a section outside it is touched. */
    method Perform(op: Op)
      requires Valid() && Legal(list, op) && op.s in universe
      modifies this`sections, this`sectionLast, this`list, universe
      ensures list == Apply(old(list), op)
      ensures Snapshot() == Step(old(Snapshot()), old(list), op) && Valid()
    {
      ghost var before, list' := Snapshot(), Apply(list, op);
      CallExactly(op);
      ghost var after := Snapshot();
      list := list';
      assert Snapshot() == after && Sound(after, list');
    }

    /** Any run of operations: the heap ends up in the one state the run means, and the test is
        right about every section, in the list or not. */
    method Run(ops: seq<Op>)
      requires Valid() && LegalRun(list, ops) && forall op :: op in ops ==> op.s in universe
      modifies this`sections, this`sectionLast, this`list, universe
      ensures list == ApplyAll(old(list), ops)
      ensures Valid() && Snapshot() == old(RunLinks(Snapshot(), list, ops))
      ensures forall s :: s in universe ==> (Removed(Snapshot(), s) <==> s !in list)
    {
      ghost var goal := RunLinks(Snapshot(), list, ops);
      RunsExact(Snapshot(), list, ops);
      for k := 0 to |ops|
        invariant Valid()
        invariant LegalRun(list, ops[k..]) && Within(Snapshot(), ops[k..])
        invariant ApplyAll(list, ops[k..]) == ApplyAll(old(list), ops)
        invariant RunLinks(Snapshot(), list, ops[k..]) == goal
      {
        assert ops[k..][0] == ops[k] && ops[k..][1..] == ops[k + 1..];
        Perform(ops[k]);
      }
    }
  }
}
