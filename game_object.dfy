/**
 * GameObject: an on-screen entity that owns at most one component per
 * component kind, in a fixed array of slots indexed by kind. Removing or
 * replacing a component does not destroy it at once: it is moved to
 * `toDelete`, and the list is destroyed at the end of Update. An entity
 * none of whose slots held a component during Update requests its own
 * deletion.
 *
 * Component::Update is polymorphic and not part of this model; here it is a
 * Behaviour: given the kind being updated and which slots are full, the list
 * of operations the component performs on its own entity.
 */
module GameObjects {
  import opened Basics
  import opened Events
  import opened Components

  /** One thing a component's Update may do to its entity. */
  datatype Op =
    | Install(kind: ComponentType, payload: Payload)  // SetComponent(new Component{...})
    | Remove(kind: ComponentType)                     // DeleteComponent(kind)
    | SetDeleteRequest(del: bool)                     // SetRequestDelete(del)

  /** What the component of a kind does to its entity, given what the entity holds at that moment. */
  type Behaviour = (ComponentType, map<ComponentType, Payload>) -> seq<Op>

  /** What component updates can observe and change: the payload in each full slot, and the delete request. */
  datatype View = View(contents: map<ComponentType, Payload>, requestDelete: bool)

  /** The components held by `slots`, in slot order. */
  function Occupants(slots: seq<Component?>): (r: seq<Component>)
    ensures forall i :: 0 <= i < |r| ==> r[i] in slots
    ensures forall i :: 0 <= i < |slots| && slots[i] != null ==> slots[i] in r
  {
    if slots == [] then []
    else Occupants(slots[..|slots| - 1])
         + (if slots[|slots| - 1] == null then [] else [slots[|slots| - 1]])
  }

  function ApplyOp(v: View, op: Op): View {
    match op
    case Install(k, p) => v.(contents := v.contents[k := p])
    case Remove(k) => v.(contents := v.contents - {k})
    case SetDeleteRequest(d) => v.(requestDelete := d)
  }

  function ApplyOps(v: View, ops: seq<Op>): View {
    if ops == [] then v else ApplyOp(ApplyOps(v, ops[..|ops| - 1]), ops[|ops| - 1])
  }

  /**
   * The slot loop of GameObject::Update from slot `i` on: a slot is visited
   * when it is full at the moment the loop reaches it, and the visit applies
   * that component's operations. Returns the final view and the visited kinds.
   */
  function VisitFrom(v: View, i: nat, behaviour: Behaviour): (View, seq<ComponentType>)
    requires i <= NUM_COMPONENTS
    decreases NUM_COMPONENTS - i
  {
    if i == NUM_COMPONENTS then (v, [])
    else if i in v.contents then
      var after := VisitFrom(ApplyOps(v, behaviour(i, v.contents)), i + 1, behaviour);
      (after.0, [i as ComponentType] + after.1)
    else VisitFrom(v, i + 1, behaviour)
  }

  /** GameObject::Update on the view: the slot loop, then the delete request if nothing was visited. */
  function UpdateSpec(v: View, behaviour: Behaviour): (View, seq<ComponentType>) {
    var (after, visited) := VisitFrom(v, 0, behaviour);
    (if visited == [] then after.(requestDelete := true) else after, visited)
  }

  lemma VisitFull(v: View, i: nat, behaviour: Behaviour)
    requires i < NUM_COMPONENTS && i in v.contents
    ensures VisitFrom(v, i, behaviour).0 == VisitFrom(ApplyOps(v, behaviour(i, v.contents)), i + 1, behaviour).0
    ensures VisitFrom(v, i, behaviour).1
            == [i as ComponentType] + VisitFrom(ApplyOps(v, behaviour(i, v.contents)), i + 1, behaviour).1
  {
  }

  /** One slot of VisitFrom: what remains to visit after slot `i`, whether or not `i` was full. */
  lemma VisitSlotStep(v0: View, v: View, v': View, i: nat, behaviour: Behaviour, full: bool,
                      visited: seq<ComponentType>, visited': seq<ComponentType>)
    requires i < NUM_COMPONENTS && (full <==> i in v.contents)
    requires v' == if full then ApplyOps(v, behaviour(i, v.contents)) else v
    requires visited' == if full then visited + [i as ComponentType] else visited
    requires VisitFrom(v0, 0, behaviour).0 == VisitFrom(v, i, behaviour).0
    requires VisitFrom(v0, 0, behaviour).1 == visited + VisitFrom(v, i, behaviour).1
    ensures VisitFrom(v0, 0, behaviour).0 == VisitFrom(v', i + 1, behaviour).0
    ensures VisitFrom(v0, 0, behaviour).1 == visited' + VisitFrom(v', i + 1, behaviour).1
  {
    if full {
      VisitFullSlot(v, v', i, behaviour, visited);
    } else {
      VisitEmptySlot(v, i, behaviour);
    }
  }

  lemma VisitFullSlot(v: View, v': View, i: nat, behaviour: Behaviour, visited: seq<ComponentType>)
    requires i < NUM_COMPONENTS && i in v.contents
    requires v' == ApplyOps(v, behaviour(i, v.contents))
    ensures VisitFrom(v, i, behaviour).0 == VisitFrom(v', i + 1, behaviour).0
    ensures visited + VisitFrom(v, i, behaviour).1 == (visited + [i as ComponentType]) + VisitFrom(v', i + 1, behaviour).1
  {
    VisitFull(v, i, behaviour);
    var rest := VisitFrom(v', i + 1, behaviour).1;
    assert visited + ([i as ComponentType] + rest) == (visited + [i as ComponentType]) + rest;
  }

  lemma VisitEmptySlot(v: View, i: nat, behaviour: Behaviour)
    requires i < NUM_COMPONENTS && i !in v.contents
    ensures VisitFrom(v, i, behaviour) == VisitFrom(v, i + 1, behaviour)
  {
  }

  /** No component's Update ever clears the delete request. */
  ghost predicate NeverClears(behaviour: Behaviour) {
    forall k: ComponentType, m: map<ComponentType, Payload> :: SetDeleteRequest(false) !in behaviour(k, m)
  }

  /** No component's Update ever installs a component. */
  ghost predicate NeverInstalls(behaviour: Behaviour) {
    forall k: ComponentType, m: map<ComponentType, Payload>, j :: 0 <= j < |behaviour(k, m)| ==> !behaviour(k, m)[j].Install?
  }

  /** No component's Update does anything to its entity. */
  ghost predicate Quiet(behaviour: Behaviour) {
    forall k: ComponentType, m: map<ComponentType, Payload> :: behaviour(k, m) == []
  }

  /** The operation neither installs nor removes a component of kind `t`. */
  predicate LeavesKind(op: Op, t: ComponentType) {
    (op.Install? || op.Remove?) ==> op.kind != t
  }

  /** No component's Update installs or removes a component of kind `t`. */
  ghost predicate NeverTouches(behaviour: Behaviour, t: ComponentType) {
    forall k: ComponentType, m: map<ComponentType, Payload>, j :: 0 <= j < |behaviour(k, m)| ==> LeavesKind(behaviour(k, m)[j], t)
  }

  lemma {:induction false} ApplyOpsKeepsRequest(v: View, ops: seq<Op>)
    requires v.requestDelete && SetDeleteRequest(false) !in ops
    ensures ApplyOps(v, ops).requestDelete
    decreases |ops|
  {
    if ops != [] {
      assert ops[..|ops| - 1] + [ops[|ops| - 1]] == ops;
      ApplyOpsKeepsRequest(v, ops[..|ops| - 1]);
    }
  }

  lemma {:induction false} ApplyOpsNoInstall(v: View, ops: seq<Op>, k: ComponentType)
    requires k !in v.contents
    requires forall j :: 0 <= j < |ops| ==> !ops[j].Install?
    ensures k !in ApplyOps(v, ops).contents
    decreases |ops|
  {
    if ops != [] {
      ApplyOpsNoInstall(v, ops[..|ops| - 1], k);
    }
  }

  /** Operations that leave kind `t` alone leave its slot, and the payload in it, as they were. */
  lemma {:induction false} ApplyOpsKeepsKind(v: View, ops: seq<Op>, t: ComponentType)
    requires forall j :: 0 <= j < |ops| ==> LeavesKind(ops[j], t)
    ensures var r := ApplyOps(v, ops).contents;
      (t in r <==> t in v.contents) && (t in r ==> r[t] == v.contents[t])
    decreases |ops|
  {
    if ops != [] {
      ApplyOpsKeepsKind(v, ops[..|ops| - 1], t);
    }
  }

  /** `s` is strictly increasing and no element is below `lo`. */
  ghost predicate IncreasingFrom(s: seq<ComponentType>, lo: int) {
    && (forall j :: 0 <= j < |s| ==> lo <= s[j])
    && (forall j, l :: 0 <= j < l < |s| ==> s[j] < s[l])
  }

  /** The slot loop visits kinds in strictly increasing order, none below the starting slot. */
  lemma {:induction false} VisitOrder(v: View, i: nat, behaviour: Behaviour)
    requires i <= NUM_COMPONENTS
    ensures IncreasingFrom(VisitFrom(v, i, behaviour).1, i)
    decreases NUM_COMPONENTS - i
  {
    if i < NUM_COMPONENTS {
      if i in v.contents {
        var next := ApplyOps(v, behaviour(i, v.contents));
        VisitOrder(next, i + 1, behaviour);
        var rest := VisitFrom(next, i + 1, behaviour).1;
        assert VisitFrom(v, i, behaviour).1 == [i as ComponentType] + rest;
      } else {
        VisitOrder(v, i + 1, behaviour);
      }
    }
  }

  /**
   * When no component installs anything, only kinds whose slot was full
   * before the loop can be visited.
   */
  lemma {:induction false} VisitOnlyFull(v: View, i: nat, behaviour: Behaviour)
    requires i <= NUM_COMPONENTS && NeverInstalls(behaviour)
    ensures forall j :: 0 <= j < |VisitFrom(v, i, behaviour).1| ==> VisitFrom(v, i, behaviour).1[j] in v.contents
    decreases NUM_COMPONENTS - i
  {
    if i < NUM_COMPONENTS {
      var next := if i in v.contents then ApplyOps(v, behaviour(i, v.contents)) else v;
      VisitOnlyFull(next, i + 1, behaviour);
      VisitOrder(next, i + 1, behaviour);
      var rest := VisitFrom(next, i + 1, behaviour).1;
      forall j | 0 <= j < |rest| ensures rest[j] in v.contents {
        if rest[j] !in v.contents && i in v.contents {
          ApplyOpsNoInstall(v, behaviour(i, v.contents), rest[j]);
        }
      }
    }
  }

  /** When no component does anything, the loop visits exactly the full slots and changes nothing. */
  lemma {:induction false} QuietVisit(v: View, i: nat, behaviour: Behaviour)
    requires i <= NUM_COMPONENTS && Quiet(behaviour)
    ensures VisitFrom(v, i, behaviour).0 == v
    ensures forall k: ComponentType :: k in VisitFrom(v, i, behaviour).1 <==> i <= k && k in v.contents
    decreases NUM_COMPONENTS - i
  {
    if i < NUM_COMPONENTS {
      assert ApplyOps(v, behaviour(i, v.contents)) == v;
      QuietVisit(v, i + 1, behaviour);
    }
  }

  /** A slot that no component installs or removes keeps its payload through the whole loop. */
  lemma {:induction false} VisitKeepsKind(v: View, i: nat, behaviour: Behaviour, t: ComponentType)
    requires i <= NUM_COMPONENTS && NeverTouches(behaviour, t)
    ensures var r := VisitFrom(v, i, behaviour).0.contents;
      (t in r <==> t in v.contents) && (t in r ==> r[t] == v.contents[t])
    decreases NUM_COMPONENTS - i
  {
    if i < NUM_COMPONENTS {
      if i in v.contents {
        var next := ApplyOps(v, behaviour(i, v.contents));
        ApplyOpsKeepsKind(v, behaviour(i, v.contents), t);
        VisitKeepsKind(next, i + 1, behaviour, t);
      } else {
        VisitKeepsKind(v, i + 1, behaviour, t);
      }
    }
  }

  /** Empty slots are skipped without effect. */
  lemma {:induction false} SkipEmpty(v: View, i: nat, j: nat, behaviour: Behaviour)
    requires i <= j <= NUM_COMPONENTS
    requires forall m :: i <= m < j ==> m !in v.contents
    ensures VisitFrom(v, i, behaviour) == VisitFrom(v, j, behaviour)
    decreases j - i
  {
    if i < j {
      SkipEmpty(v, i + 1, j, behaviour);
    }
  }

  /**
   * GameObject::Update never clears the delete request itself: it is set
   * when no slot was full when visited, and once set it stays set unless a
   * component clears it.
   */
  lemma UpdateRequestDelete(v: View, behaviour: Behaviour)
    ensures UpdateSpec(v, behaviour).1 == [] ==> UpdateSpec(v, behaviour).0.requestDelete
    ensures v.requestDelete && NeverClears(behaviour) ==> UpdateSpec(v, behaviour).0.requestDelete
  {
    if v.requestDelete && NeverClears(behaviour) {
      VisitKeepsRequest(v, 0, behaviour);
    }
  }

  lemma {:induction false} VisitKeepsRequest(v: View, i: nat, behaviour: Behaviour)
    requires i <= NUM_COMPONENTS && v.requestDelete && NeverClears(behaviour)
    ensures VisitFrom(v, i, behaviour).0.requestDelete
    decreases NUM_COMPONENTS - i
  {
    if i < NUM_COMPONENTS {
      if i in v.contents {
        ApplyOpsKeepsRequest(v, behaviour(i, v.contents));
        VisitKeepsRequest(ApplyOps(v, behaviour(i, v.contents)), i + 1, behaviour);
      } else {
        VisitKeepsRequest(v, i + 1, behaviour);
      }
    }
  }

  /** An entity with no components requests its deletion and is otherwise unchanged. */
  lemma EmptyRequestsDelete(v: View, behaviour: Behaviour)
    requires v.contents == map[]
    ensures UpdateSpec(v, behaviour) == (v.(requestDelete := true), [])
  {
    SkipEmpty(v, 0, NUM_COMPONENTS, behaviour);
  }

  /**
   * A component that removes itself while it is its entity's only
   * component: that Update visited a slot, so the delete request is not set;
   * the entity is left empty, and only the next Update requests deletion.
   */
  lemma SelfRemovalDefersDelete(k: ComponentType, p: Payload, next: Behaviour)
    ensures var behaviour := (t: ComponentType, m: map<ComponentType, Payload>) => if t == k then [Remove(k)] else [];
      && UpdateSpec(View(map[k := p], false), behaviour) == (View(map[], false), [k])
      && UpdateSpec(View(map[], false), next) == (View(map[], true), [])
  {
    var v := View(map[k := p], false);
    var behaviour := (t: ComponentType, m: map<ComponentType, Payload>) => if t == k then [Remove(k)] else [];
    SkipEmpty(v, 0, k, behaviour);
    assert behaviour(k, v.contents) == [Remove(k)];
    var after := ApplyOps(v, [Remove(k)]);
    assert [Remove(k)][..0] == [];
    assert ApplyOps(v, [Remove(k)][..0]) == v;
    assert after.contents == map[];
    SkipEmpty(after, k + 1, NUM_COMPONENTS, behaviour);
    assert VisitFrom(after, k + 1, behaviour) == (after, []);
    VisitFull(v, k, behaviour);
    assert VisitFrom(v, k, behaviour).1 == [k as ComponentType] + [];
    assert ApplyOps(v, behaviour(k, v.contents)) == after;
    assert VisitFrom(v, k, behaviour).0 == after;
    assert VisitFrom(v, k, behaviour).1 == [k];
    assert VisitFrom(v, k, behaviour) == (after, [k]);
    EmptyRequestsDelete(View(map[], false), next);
  }

  /**
   * From slots `s0` and pending list `p0` to slots `s1` and pending list
   * `p1`: the pending list only grew, and every component that left its
   * slot is pending.
   */
  ghost predicate Tracked(s0: seq<Component?>, p0: seq<Component>, s1: seq<Component?>, p1: seq<Component>) {
    && |s0| == |s1|
    && |p0| <= |p1| && p1[..|p0|] == p0
    && (forall t :: 0 <= t < |s0| && s0[t] != null && s1[t] != s0[t] ==> s0[t] in p1)
  }

  lemma TrackedTransitive(s0: seq<Component?>, p0: seq<Component>, s1: seq<Component?>, p1: seq<Component>,
                          s2: seq<Component?>, p2: seq<Component>)
    requires Tracked(s0, p0, s1, p1) && Tracked(s1, p1, s2, p2)
    ensures Tracked(s0, p0, s2, p2)
  {
    forall t | 0 <= t < |s0| && s0[t] != null && s2[t] != s0[t] ensures s0[t] in p2 {
      if s1[t] != s0[t] {
        assert s0[t] in p2[..|p1|];
      }
    }
  }

  /** The contents after installing `items` in order over `m`: a later item of a kind replaces an earlier one. */
  function Overlay(m: map<ComponentType, Payload>, items: seq<(ComponentType, Payload)>): map<ComponentType, Payload> {
    if items == [] then m
    else Overlay(m, items[..|items| - 1])[items[|items| - 1].0 := items[|items| - 1].1]
  }

  /** The kinds Overlay ends up with: those already there and those of the items. */
  lemma {:induction false} OverlayKeys(m: map<ComponentType, Payload>, items: seq<(ComponentType, Payload)>)
    ensures Overlay(m, items).Keys == m.Keys + set i | 0 <= i < |items| :: items[i].0
    decreases |items|
  {
    if items != [] {
      var prefix := items[..|items| - 1];
      OverlayKeys(m, prefix);
      assert forall i :: 0 <= i < |items| - 1 ==> items[i] == prefix[i];
      assert (set i | 0 <= i < |items| :: items[i].0)
          == (set i | 0 <= i < |prefix| :: prefix[i].0) + {items[|items| - 1].0};
    }
  }

  /** The contents of an object made empty and then given `items`. */
  function Assemble(items: seq<(ComponentType, Payload)>): map<ComponentType, Payload> {
    Overlay(map[], items)
  }

  /** The kinds of `items` are pairwise different and none is in `m`. */
  ghost predicate NewKinds(m: map<ComponentType, Payload>, items: seq<(ComponentType, Payload)>) {
    && (forall i :: 0 <= i < |items| ==> items[i].0 !in m)
    && (forall i, j :: 0 <= i < j < |items| ==> items[i].0 != items[j].0)
  }

  /** Installing items of distinct kinds gives each kind its own item. */
  lemma {:induction false} OverlayLookup(m: map<ComponentType, Payload>, items: seq<(ComponentType, Payload)>, i: nat)
    requires NewKinds(m, items) && i < |items|
    ensures items[i].0 in Overlay(m, items) && Overlay(m, items)[items[i].0] == items[i].1
    decreases |items|
  {
    if i < |items| - 1 {
      var prefix := items[..|items| - 1];
      assert NewKinds(m, prefix) by {
        assert forall j :: 0 <= j < |prefix| ==> prefix[j] == items[j];
      }
      OverlayLookup(m, prefix, i);
      assert prefix[i] == items[i];
    }
  }

  lemma NoDuplicatesInsert<T>(a: seq<T>, x: T, b: seq<T>)
    requires NoDuplicates(a + b) && x !in a + b
    ensures NoDuplicates(a + [x] + b)
  {
    var s := a + [x] + b;
    forall i, j | 0 <= i < j < |s| ensures s[i] != s[j] {
      if i == |a| {
        assert s[j] in a + b;
      } else if j == |a| {
        assert s[i] in a + b;
      } else {
        var i' := if i < |a| then i else i - 1;
        var j' := if j < |a| then j else j - 1;
        assert s[i] == (a + b)[i'] && s[j] == (a + b)[j'];
      }
    }
  }

  class GameObject {
    var x: real
    var y: real
    /** The size at creation (GameObject.h `original_width_`, `original_height_`). */
    const originalWidth: real
    const originalHeight: real
    /** `components_[NUM_COMPONENTS]`: slot `t` holds the component of kind `t`, or null. */
    const components: array<Component?>
    /** `to_delete_`: removed components waiting to be destroyed at the end of Update. */
    var toDelete: seq<Component>
    var requestDelete: bool
    /** Every component this object has destroyed (`delete c`), in order. */
    ghost var Destroyed: seq<Component>

    /** Components that have left their slot: destroyed, or waiting to be. */
    ghost function Retired(): seq<Component>
      reads this
    {
      Destroyed + toDelete
    }

    predicate Installed(c: Component)
      reads this, components
    {
      components.Length == NUM_COMPONENTS && components[c.kind] == c
    }

    /**
     * The object invariant: each slot holds a component of its own kind, no
     * component is retired twice, and no retired component is still installed
     * (so none is ever destroyed while installed).
     */
    ghost predicate Valid()
      reads this, components
    {
      && components.Length == NUM_COMPONENTS
      && (forall t: ComponentType :: components[t] != null ==> components[t].kind == t)
      && NoDuplicates(Retired())
      && (forall i :: 0 <= i < |Retired()| ==> !Installed(Retired()[i]))
    }

    function Snapshot(): (v: View)
      reads this, components
      requires Valid()
      ensures v.contents == Contents() && v.requestDelete == requestDelete
    {
      View(Contents(), requestDelete)
    }

    /** What the object holds: the payload of the component in each full slot. */
    function Contents(): (m: map<ComponentType, Payload>)
      reads this, components
      requires Valid()
      ensures forall t: ComponentType :: t in m <==> components[t] != null
      ensures forall t: ComponentType :: t in m ==> m[t] == components[t].payload
    {
      map t: ComponentType | components[t] != null :: components[t].payload
    }

    constructor (x: real, y: real, width: real, height: real)
      ensures Valid() && fresh(components) && Contents() == map[]
      ensures this.x == x && this.y == y && originalWidth == width && originalHeight == height
      ensures forall t: ComponentType :: components[t] == null
      ensures toDelete == [] && Destroyed == [] && !requestDelete
    {
      this.x, this.y := x, y;
      originalWidth, originalHeight := width, height;
      components := new Component?[NUM_COMPONENTS](_ => null);
      toDelete, requestDelete := [], false;
      Destroyed := [];
    }

    /** Presence of a component of exactly kind `t`. */
    function HasComponent(t: ComponentType): (b: bool)
      reads components
      requires components.Length == NUM_COMPONENTS
      ensures b <==> components[t] != null
      ensures Valid() && b ==> components[t].kind == t
    {
      components[t] != null
    }

    /** The component stored for kind `t`, or null. */
    function GetComponent(t: ComponentType): (c: Component?)
      reads this, components
      requires Valid()
      ensures c == components[t]
      ensures c != null ==> c.kind == t && Installed(c)
    {
      components[t]
    }

    function GetRequestDelete(): (b: bool)
      reads this
      ensures b == requestDelete
    {
      requestDelete
    }

    method SetRequestDelete(del: bool)
      requires Valid()
      modifies this`requestDelete
      ensures Valid() && Snapshot() == old(Snapshot()).(requestDelete := del)
      ensures requestDelete == del && GetRequestDelete() == del
    {
      ghost var m := Contents();
      requestDelete := del;
      assert Contents() == m by {
        assert Contents().Keys == m.Keys;
      }
    }

    /** Moves the component of kind `t`, if any, to `toDelete` without destroying it. */
    method DeleteComponent(t: ComponentType)
      requires Valid()
      modifies this`toDelete, components
      ensures Valid()
      ensures old(components[t]) == null ==>
                components[..] == old(components[..]) && toDelete == old(toDelete)
      ensures old(components[t]) != null ==>
                components[..] == old(components[..])[t := null]
                && toDelete == old(toDelete) + [old(components[t])]
      ensures Contents() == old(Contents()) - {t}
    {
      var c := components[t];
      if c == null {
        return;
      }
      assert c !in Retired() by {
        forall i | 0 <= i < |Retired()| ensures Retired()[i] != c {
          assert !Installed(Retired()[i]);
        }
      }
      NoDuplicatesInsert(Retired(), c, []);
      toDelete := toDelete + [c];
      components[t] := null;
      assert Retired() == old(Retired()) + [c] + [];
      assert Contents().Keys == old(Contents()).Keys - {t};
    }

    /**
     * Installs `c` in the slot of its kind; the previous occupant goes to
     * `toDelete`. `c` must not be installed or retired already: otherwise the
     * flush at the end of Update would destroy a component that is installed.
     */
    method SetComponent(c: Component)
      requires Valid()
      requires c !in Retired() && !Installed(c)
      modifies this`toDelete, components
      ensures Valid()
      ensures components[..] == old(components[..])[c.kind := c]
      ensures toDelete == old(toDelete)
                + (if old(components[c.kind]) == null then [] else [old(components[c.kind])])
    {
      DeleteComponent(c.kind);
      components[c.kind] := c;
    }

    /** `SetComponent(new ...)`: installs a newly made component of kind `kind`. */
    method AddComponent(kind: ComponentType, payload: Payload) returns (c: Component)
      requires Valid()
      modifies this`toDelete, components
      ensures Valid() && fresh(c) && c.kind == kind && c.payload == payload
      ensures components[..] == old(components[..])[kind := c]
      ensures toDelete == old(toDelete)
                + (if old(components[kind]) == null then [] else [old(components[kind])])
      ensures Contents() == old(Contents())[kind := payload]
    {
      c := new Component(kind, payload);
      SetComponent(c);
      assert Contents().Keys == old(Contents()).Keys + {kind};
    }

    /** Successive `SetComponent(new ...)` calls, one per item, in order. */
    method AddAll(items: seq<(ComponentType, Payload)>)
      requires Valid()
      modifies this`toDelete, components
      ensures Valid()
      ensures Contents() == Overlay(old(Contents()), items)
      ensures NewKinds(old(Contents()), items) ==> toDelete == old(toDelete)
    {
      ghost var m := Contents();
      var j := 0;
      while j < |items|
        invariant 0 <= j <= |items|
        invariant Valid()
        invariant Contents() == Overlay(m, items[..j])
        invariant NewKinds(m, items) ==> toDelete == old(toDelete)
      {
        if NewKinds(m, items) {
          assert items[j].0 !in Overlay(m, items[..j]) by {
            OverlayKeys(m, items[..j]);
            forall i | 0 <= i < j ensures items[..j][i].0 != items[j].0 {
              assert items[..j][i] == items[i];
            }
          }
        }
        var _ := AddComponent(items[j].0, items[j].1);
        assert items[..j + 1][..j] == items[..j];
        j := j + 1;
      }
      assert items[..j] == items;
    }

    /** Performs one operation of a component's Update on this object. */
    method Perform(op: Op)
      requires Valid()
      modifies this`toDelete, this`requestDelete, components
      ensures Valid()
      ensures Snapshot() == ApplyOp(old(Snapshot()), op)
      ensures Tracked(old(components[..]), old(toDelete), components[..], toDelete)
    {
      match op
      case Install(k, p) =>
        var c := AddComponent(k, p);
        assert components[..] == old(components[..])[k := c];
      case Remove(k) =>
        DeleteComponent(k);
      case SetDeleteRequest(d) =>
        SetRequestDelete(d);
    }

    /** Performs the operations of a component's Update, in order. */
    method PerformAll(ops: seq<Op>)
      requires Valid()
      modifies this`toDelete, this`requestDelete, components
      ensures Valid()
      ensures Snapshot() == ApplyOps(old(Snapshot()), ops)
      ensures Tracked(old(components[..]), old(toDelete), components[..], toDelete)
    {
      ghost var slots0, pending0 := components[..], toDelete;
      var j := 0;
      while j < |ops|
        invariant 0 <= j <= |ops|
        invariant Valid()
        invariant Snapshot() == ApplyOps(old(Snapshot()), ops[..j])
        invariant Tracked(slots0, pending0, components[..], toDelete)
      {
        ghost var slots1, pending1 := components[..], toDelete;
        Perform(ops[j]);
        TrackedTransitive(slots0, pending0, slots1, pending1, components[..], toDelete);
        assert ops[..j + 1][..j] == ops[..j];
        j := j + 1;
      }
      assert ops[..j] == ops;
    }

    /**
     * One turn of the slot loop of GameObject::Update: slot `i` is updated
     * when it holds a component at that moment.
     */
    method UpdateSlot(i: ComponentType, behaviour: Behaviour) returns (full: bool)
      requires Valid()
      modifies this`toDelete, this`requestDelete, components
      ensures Valid()
      ensures full <==> i in old(Contents())
      ensures Snapshot() == if full then ApplyOps(old(Snapshot()), behaviour(i, old(Contents())))
                            else old(Snapshot())
      ensures Tracked(old(components[..]), old(toDelete), components[..], toDelete)
    {
      full := components[i] != null;
      if full {
        var ops := behaviour(i, Contents());
        PerformAll(ops);
      } else {
        assert toDelete[..|old(toDelete)|] == old(toDelete);
      }
    }

    /**
     * The slot loop of GameObject::Update: updates every slot that is full
     * when the loop reaches it, in increasing slot order. Nothing is
     * destroyed here.
     */
    method UpdateSlots(behaviour: Behaviour) returns (hasComponent: bool, ghost visited: seq<ComponentType>)
      requires Valid()
      modifies this`toDelete, this`requestDelete, components
      ensures Valid()
      ensures (Snapshot(), visited) == VisitFrom(old(Snapshot()), 0, behaviour)
      ensures hasComponent <==> visited != []
      ensures Tracked(old(components[..]), old(toDelete), components[..], toDelete)
    {
      ghost var v0 := Snapshot();
      ghost var slots0, pending0 := components[..], toDelete;
      hasComponent := false;
      visited := [];
      var i := 0;
      while i < NUM_COMPONENTS
        invariant 0 <= i <= NUM_COMPONENTS
        invariant Valid()
        invariant hasComponent <==> visited != []
        invariant VisitFrom(v0, 0, behaviour).0 == VisitFrom(Snapshot(), i, behaviour).0
        invariant VisitFrom(v0, 0, behaviour).1 == visited + VisitFrom(Snapshot(), i, behaviour).1
        invariant Tracked(slots0, pending0, components[..], toDelete)
      {
        hasComponent, visited := VisitSlot(i, behaviour, v0, slots0, pending0, hasComponent, visited);
        i := i + 1;
      }
      ghost var rest := VisitFrom(Snapshot(), i, behaviour);
      assert rest == (Snapshot(), []);
      assert visited + rest.1 == visited;
      ghost var whole := VisitFrom(v0, 0, behaviour);
      assert whole.0 == Snapshot() && whole.1 == visited;
    }

    /** One turn of the slot loop of UpdateSlots, with the loop's invariant carried from `i` to `i + 1`. */
    method VisitSlot(i: ComponentType, behaviour: Behaviour, ghost v0: View,
                     ghost slots0: seq<Component?>, ghost pending0: seq<Component>,
                     hasComponent: bool, ghost visited: seq<ComponentType>)
      returns (hasComponent': bool, ghost visited': seq<ComponentType>)
      requires Valid()
      requires hasComponent <==> visited != []
      requires VisitFrom(v0, 0, behaviour).0 == VisitFrom(Snapshot(), i, behaviour).0
      requires VisitFrom(v0, 0, behaviour).1 == visited + VisitFrom(Snapshot(), i, behaviour).1
      requires Tracked(slots0, pending0, components[..], toDelete)
      modifies this`toDelete, this`requestDelete, components
      ensures Valid()
      ensures hasComponent' <==> visited' != []
      ensures VisitFrom(v0, 0, behaviour).0 == VisitFrom(Snapshot(), i + 1, behaviour).0
      ensures VisitFrom(v0, 0, behaviour).1 == visited' + VisitFrom(Snapshot(), i + 1, behaviour).1
      ensures Tracked(slots0, pending0, components[..], toDelete)
    {
      ghost var before := Snapshot();
      ghost var slots1, pending1 := components[..], toDelete;
      var full := UpdateSlot(i, behaviour);
      TrackedTransitive(slots0, pending0, slots1, pending1, components[..], toDelete);
      if full {
        hasComponent', visited' := true, visited + [i];
      } else {
        hasComponent', visited' := hasComponent, visited;
      }
      VisitSlotStep(v0, before, Snapshot(), i, behaviour, full, visited, visited');
    }

    /**
     * GameObject::Update: the slot loop; a delete request if no slot was
     * full when visited; then every component in `toDelete` is destroyed,
     * exactly once, and the list is cleared.
     */
    method Update(behaviour: Behaviour) returns (ghost visited: seq<ComponentType>)
      requires Valid()
      modifies this`toDelete, this`requestDelete, this`Destroyed, components
      ensures Valid()
      ensures (Snapshot(), visited) == UpdateSpec(old(Snapshot()), behaviour)
      ensures Contents() == UpdateSpec(old(Snapshot()), behaviour).0.contents
      ensures toDelete == []
      ensures |old(Destroyed)| <= |Destroyed| && Destroyed[..|old(Destroyed)|] == old(Destroyed)
      ensures forall i :: 0 <= i < |old(toDelete)| ==> old(toDelete)[i] in Destroyed
      ensures forall t: ComponentType :: old(components[t]) != null && components[t] != old(components[t])
                ==> old(components[t]) in Destroyed
    {
      var hasComponent;
      hasComponent, visited := UpdateSlots(behaviour);
      if !hasComponent {
        SetRequestDelete(true);
      }
      ghost var pending := toDelete;
      Flush();
      assert forall i :: 0 <= i < |old(toDelete)| ==> old(toDelete)[i] == pending[i];
    }

    /** The end of GameObject::Update: `delete c` for every pending component, then `to_delete_.clear()`. */
    method Flush()
      requires Valid()
      modifies this`toDelete, this`Destroyed
      ensures Valid() && Snapshot() == old(Snapshot())
      ensures toDelete == [] && Destroyed == old(Destroyed) + old(toDelete)
    {
      ghost var m := Contents();
      Destroyed := Destroyed + toDelete;
      toDelete := [];
      assert Retired() == old(Retired());
      assert Contents() == m by {
        assert Contents().Keys == m.Keys;
      }
    }

    /**
     * ~GameObject: destroys every installed component. Components still in
     * `toDelete` are not destroyed by the destructor. The object must not be
     * used afterwards.
     */
    method Destroy()
      requires Valid()
      modifies this`Destroyed
      ensures Destroyed == old(Destroyed) + Occupants(components[..])
      ensures toDelete == old(toDelete)
    {
      Destroyed := Destroyed + Occupants(components[..]);
    }
  }

  /**
   * `new GameObject(x, y, width, height)` followed by one `SetComponent(new ...)`
   * per item, in order, as the factories do it.
   */
  method NewGameObject(x: real, y: real, width: real, height: real, items: seq<(ComponentType, Payload)>)
    returns (o: GameObject)
    requires NewKinds(map[], items)
    ensures fresh(o) && fresh(o.components) && o.Valid()
    ensures o.x == x && o.y == y && o.originalWidth == width && o.originalHeight == height
    ensures o.Contents() == Assemble(items)
    ensures o.toDelete == [] && o.Destroyed == [] && !o.requestDelete
  {
    o := new GameObject(x, y, width, height);
    o.AddAll(items);
  }
}
