/** The objects of a section, and how its indexes follow from them (Source/Server/Section). */
module Registry {
  import opened Common

  datatype Kind = Npc | Projectile | Pc | Other

  class GameObject {
    const kind: Kind
    const hasCollider: bool
    const spawnerId: int
    var objectId: int
    var sectionId: nat
    /** Milliseconds. */
    var createdTick: int
    var lifetimeSeconds: Option<real>

    constructor (kind: Kind, hasCollider: bool, spawnerId: int)
      ensures this.kind == kind && this.hasCollider == hasCollider && this.spawnerId == spawnerId && objectId == 0
    {
      this.kind, this.hasCollider, this.spawnerId := kind, hasCollider, spawnerId;
      objectId, sectionId, createdTick, lifetimeSeconds := 0, 0, 0, None;
    }

    /** An object without a lifetime never expires; any other from its lifetime after its creation on. */
    predicate IsExpired(now: int): (expired: bool)
      reads this`createdTick, this`lifetimeSeconds
      ensures expired <==>
        lifetimeSeconds.Some? && now as real >= createdTick as real + 1000.0 * lifetimeSeconds.value
    {
      lifetimeSeconds.Some? && (now - createdTick) as real / 1000.0 >= lifetimeSeconds.value
    }
  }

  type Objects = map<int, GameObject>

  // ---------- what the indexes are to hold ----------

  function OfKind(m: Objects, kind: Kind): Objects {
    map id | id in m && m[id].kind == kind :: m[id]
  }

  function WithCollider(m: Objects): Objects {
    map id | id in m && m[id].hasCollider :: m[id]
  }

  /** The living NPCs of a spawner. */
  function LiveNpcs(m: Objects, spawner: int): set<int> {
    set id | id in m && m[id].kind == Npc && m[id].spawnerId == spawner
  }

  function Count(counts: map<int, int>, spawner: int): int {
    if spawner in counts then counts[spawner] else 0
  }

  ghost predicate CountsRight(counts: map<int, int>, m: Objects) {
    forall s :: s > 0 ==> Count(counts, s) == |LiveNpcs(m, s)|
  }

  lemma LiveNpcsAdd(m: Objects, id: int, o: GameObject, s: int)
    requires id !in m
    ensures |LiveNpcs(m[id := o], s)| == |LiveNpcs(m, s)| + if o.kind == Npc && o.spawnerId == s then 1 else 0
  {
    assert LiveNpcs(m[id := o], s) == LiveNpcs(m, s) + if o.kind == Npc && o.spawnerId == s then {id} else {};
  }

  lemma LiveNpcsRemove(m: Objects, id: int, s: int)
    requires id in m
    ensures |LiveNpcs(m - {id}, s)| == |LiveNpcs(m, s)| - if m[id].kind == Npc && m[id].spawnerId == s then 1 else 0
  {
    assert LiveNpcs(m - {id}, s) == LiveNpcs(m, s) - {id};
  }

  lemma OfKindAdd(m: Objects, id: int, o: GameObject, kind: Kind)
    requires id !in m
    ensures OfKind(m[id := o], kind) == if o.kind == kind then OfKind(m, kind)[id := o] else OfKind(m, kind)
  {
  }

  lemma OfKindRemove(m: Objects, id: int, kind: Kind)
    requires id in m
    ensures OfKind(m - {id}, kind) == if m[id].kind == kind then OfKind(m, kind) - {id} else OfKind(m, kind)
  {
  }

  lemma WithColliderAdd(m: Objects, id: int, o: GameObject)
    requires id !in m
    ensures WithCollider(m[id := o]) == if o.hasCollider then WithCollider(m)[id := o] else WithCollider(m)
  {
  }

  function Raised(counts: map<int, int>, o: GameObject): map<int, int> {
    if o.spawnerId > 0 then counts[o.spawnerId := Count(counts, o.spawnerId) + 1] else counts
  }

  function Lowered(counts: map<int, int>, o: GameObject): map<int, int> {
    var c := Count(counts, o.spawnerId);
    if o.spawnerId > 0 then counts[o.spawnerId := if c > 0 then c - 1 else c] else counts
  }

  lemma CountsAdd(counts: map<int, int>, m: Objects, id: int, o: GameObject)
    requires CountsRight(counts, m) && id !in m
    ensures CountsRight(if o.kind == Npc then Raised(counts, o) else counts, m[id := o])
  {
    var after := if o.kind == Npc then Raised(counts, o) else counts;
    forall s | s > 0 ensures Count(after, s) == |LiveNpcs(m[id := o], s)| {
      LiveNpcsAdd(m, id, o, s);
    }
  }

  lemma CountsRemove(counts: map<int, int>, m: Objects, id: int)
    requires CountsRight(counts, m) && id in m
    ensures CountsRight(if m[id].kind == Npc then Lowered(counts, m[id]) else counts, m - {id})
  {
    var o := m[id];
    var after := if o.kind == Npc then Lowered(counts, o) else counts;
    forall s | s > 0 ensures Count(after, s) == |LiveNpcs(m - {id}, s)| {
      LiveNpcsRemove(m, id, s);
      if o.kind == Npc && s == o.spawnerId { assert id in LiveNpcs(m, s); }
    }
  }

  // ---------- the tick lists ----------

  ghost predicate Registered(m: Objects, o: GameObject) {
    exists id :: id in m && m[id] == o
  }

  /** Every object of the map is in the list once, and nothing else is in it. */
  ghost predicate Lists(list: seq<GameObject>, m: Objects) {
    Distinct(list) && (forall o :: o in list ==> Registered(m, o)) && (forall id :: id in m ==> m[id] in list)
  }

  /** std::erase: what is left when all elements equal to x are taken out. */
  function Erase<T(==)>(s: seq<T>, x: T): seq<T> {
    if s == [] then [] else (if s[0] == x then [] else [s[0]]) + Erase(s[1..], x)
  }

  predicate AllBut<T(==)>(r: seq<T>, s: seq<T>, x: T) {
    (forall y :: y in r ==> y in s && y != x) && (forall y :: y in s && y != x ==> y in r)
  }

  lemma {:induction false} Erased<T>(s: seq<T>, x: T)
    ensures AllBut(Erase(s, x), s, x)
    ensures Distinct(s) ==> Distinct(Erase(s, x))
  {
    if s != [] {
      Erased(s[1..], x);
      assert Distinct(s) ==> Distinct(s[1..]) && s[0] !in s[1..];
    }
  }

  lemma {:induction false} EraseAbsent<T>(s: seq<T>, x: T)
    requires x !in s
    ensures Erase(s, x) == s
  {
    if s != [] { EraseAbsent(s[1..], x); }
  }

  lemma {:induction false} EraseConcat<T>(a: seq<T>, b: seq<T>, x: T)
    ensures Erase(a + b, x) == Erase(a, x) + Erase(b, x)
  {
    if a == [] {
      assert a + b == b;
    } else {
      EraseConcat(a[1..], b, x);
      assert (a + b)[0] == a[0] && (a + b)[1..] == a[1..] + b;
      Appended(if a[0] == x then [] else [a[0]], Erase(a[1..], x), Erase(b, x));
    }
  }

  /** The map pairs no object with two keys. */
  ghost predicate Injective(m: Objects) {
    forall i, j :: i in m && j in m && m[i] == m[j] ==> i == j
  }

  lemma ListsAdd(list: seq<GameObject>, m: Objects, id: int, o: GameObject)
    requires Lists(list, m) && id !in m && !Registered(m, o)
    ensures Lists(list + [o], m[id := o])
  {
    assert forall x :: x in list ==> x != o;
    forall x | x in list + [o] ensures Registered(m[id := o], x) {
      if x == o {
        assert m[id := o][id] == o;
      } else {
        var i :| i in m && m[i] == x;
        assert m[id := o][i] == x;
      }
    }
  }

  lemma ListsRemove(list: seq<GameObject>, m: Objects, id: int)
    requires Lists(list, m) && id in m && Injective(m)
    ensures Lists(Erase(list, m[id]), m - {id})
  {
    Erased(list, m[id]);
    forall x | x in Erase(list, m[id]) ensures Registered(m - {id}, x) {
      var i :| i in m && m[i] == x;
      assert (m - {id})[i] == x;
    }
  }

  lemma {:induction false} EraseLength<T>(s: seq<T>, x: T)
    ensures |Erase(s, x)| <= |s| && (|Erase(s, x)| == |s| <==> x !in s)
  {
    if s != [] { EraseLength(s[1..], x); }
  }

  predicate Apart<T(==)>(a: seq<T>, b: seq<T>) {
    forall x :: x in a ==> x !in b
  }

  lemma DistinctConcat<T>(a: seq<T>, b: seq<T>)
    ensures Distinct(a + b) <==> Distinct(a) && Distinct(b) && Apart(a, b)
  {
    var s := a + b;
    assert forall i :: 0 <= i < |a| ==> s[i] == a[i];
    assert forall i :: 0 <= i < |b| ==> s[|a| + i] == b[i];
    if Distinct(s) {
      forall x | x in a ensures x !in b {
        var i :| 0 <= i < |a| && a[i] == x;
        forall j | 0 <= j < |b| ensures b[j] != x { assert s[i] != s[|a| + j]; }
      }
      assert Distinct(b) by {
        forall i, j | 0 <= i < j < |b| ensures b[i] != b[j] { assert s[|a| + i] != s[|a| + j]; }
      }
    } else {
      var i, j :| 0 <= i < j < |s| && s[i] == s[j];
      if j < |a| {
        assert a[i] == a[j];
      } else if i >= |a| {
        assert b[i - |a|] == b[j - |a|];
      } else {
        assert a[i] == b[j - |a|] && a[i] in a && b[j - |a|] in b;
      }
    }
  }

  /** Taking an object out of the list of all ticked objects, or else out of the list of those that wait, takes it
      out of both. */
  lemma EraseFromOne<T>(all: seq<T>, waiting: seq<T>, limbo: seq<T>, x: T)
    requires Distinct(all + waiting + limbo)
    ensures var erased := Erase(all, x);
      Erase(all + waiting + limbo, x)
        == erased + (if |erased| == |all| then Erase(waiting, x) else waiting) + Erase(limbo, x)
  {
    EraseConcat(all + waiting, limbo, x);
    EraseConcat(all, waiting, x);
    DistinctConcat(all + waiting, limbo);
    DistinctConcat(all, waiting);
    EraseLength(all, x);
    hide Erase;
    if x in all { EraseAbsent(waiting, x); }
  }

  /** The elements in a set, and those outside it. */
  function Pick<T(==)>(s: seq<T>, d: set<T>): seq<T> {
    if s == [] then [] else (if s[0] in d then [s[0]] else []) + Pick(s[1..], d)
  }

  function Minus<T(==)>(s: seq<T>, d: set<T>): seq<T> {
    if s == [] then [] else (if s[0] in d then [] else [s[0]]) + Minus(s[1..], d)
  }

  predicate Splits<T(==)>(picked: seq<T>, rest: seq<T>, s: seq<T>, d: set<T>) {
    && (forall y :: y in picked ==> y in s && y in d) && (forall y :: y in rest ==> y in s && y !in d)
    && (forall y :: y in s ==> if y in d then y in picked else y in rest)
  }

  lemma {:induction false} Picked<T>(s: seq<T>, d: set<T>)
    ensures Splits(Pick(s, d), Minus(s, d), s, d)
    ensures Distinct(s) ==> Distinct(Pick(s, d)) && Distinct(Minus(s, d))
  {
    if s != [] {
      Picked(s[1..], d);
      assert Distinct(s) ==> Distinct(s[1..]) && s[0] !in s[1..];
    }
  }

  lemma {:induction false} MinusConcat<T>(a: seq<T>, b: seq<T>, d: set<T>)
    ensures Minus(a + b, d) == Minus(a, d) + Minus(b, d)
  {
    if a == [] {
      assert a + b == b;
    } else {
      MinusConcat(a[1..], b, d);
      assert (a + b)[0] == a[0] && (a + b)[1..] == a[1..] + b;
      Appended(if a[0] in d then [] else [a[0]], Minus(a[1..], d), Minus(b, d));
    }
  }

  lemma {:induction false} PickConcat<T>(a: seq<T>, b: seq<T>, d: set<T>)
    ensures Pick(a + b, d) == Pick(a, d) + Pick(b, d)
  {
    if a == [] {
      assert a + b == b;
    } else {
      PickConcat(a[1..], b, d);
      assert (a + b)[0] == a[0] && (a + b)[1..] == a[1..] + b;
      Appended(if a[0] in d then [a[0]] else [], Pick(a[1..], d), Pick(b, d));
    }
  }

  lemma SplitMore<T>(s: seq<T>, x: T, d: set<T>)
    ensures Pick(s + [x], d) == Pick(s, d) + if x in d then [x] else []
    ensures Minus(s + [x], d) == Minus(s, d) + if x in d then [] else [x]
  {
    MinusConcat(s, [x], d);
    PickConcat(s, [x], d);
    assert [x][1..] == [];
  }

  lemma {:induction false} EraseMinus<T>(s: seq<T>, d: set<T>, x: T)
    ensures Erase(Minus(s, d), x) == Minus(s, d + {x})
  {
    if s != [] {
      EraseMinus(s[1..], d, x);
      var r := Minus(s[1..], d);
      assert s[0] in d ==> Minus(s, d) == r;
      assert s[0] !in d ==> Minus(s, d) == [s[0]] + r && Minus(s, d)[1..] == r;
      assert s[0] in d + {x} ==> Minus(s, d + {x}) == Minus(s[1..], d + {x});
      assert s[0] !in d && s[0] == x ==> Erase(Minus(s, d), x) == Erase(r, x);
    }
  }

  lemma {:induction false} MinusNothing<T>(s: seq<T>, d: set<T>)
    requires forall x :: x in s ==> x !in d
    ensures Minus(s, d) == s
  {
    if s != [] { MinusNothing(s[1..], d); }
  }

  lemma NonePicked<T>(d: set<T>)
    ensures Pick([], d) == [] && Minus([], d) == []
  {
  }

  /** Moving the ones that stay from the waiting list to the other leaves the rest in limbo. */
  lemma ListsSplit(all: seq<GameObject>, waiting: seq<GameObject>, m: Objects, d: set<GameObject>)
    requires Lists(all + waiting, m)
    ensures Lists(all + Minus(waiting, d) + [] + Pick(waiting, d), m)
    ensures Distinct(Pick(all, d) + Pick(waiting, d))
  {
    Picked(all, d);
    Picked(waiting, d);
    hide Pick, Minus;
    DistinctConcat(all, waiting);
    DistinctConcat(Pick(all, d), Pick(waiting, d));
    var stay, go := Minus(waiting, d), Pick(waiting, d);
    DistinctConcat(all, stay);
    DistinctConcat(all + stay, go);
    assert all + stay + [] == all + stay;
    forall id | id in m ensures m[id] in all + stay + go {
      assert m[id] in all + waiting;
    }
    forall o | o in all + stay + go ensures Registered(m, o) {
      assert o in all + waiting;
    }
  }

  lemma {:induction false} MinusAll<T>(s: seq<T>, d: set<T>)
    requires forall x :: x in s ==> x in d
    ensures Minus(s, d) == []
  {
    if s != [] { MinusAll(s[1..], d); }
  }

  /** The objects of a list that are expired. */
  ghost function Expired(s: seq<GameObject>, now: int): set<GameObject>
    reads s
  {
    set o | o in s && o.IsExpired(now)
  }

  /** The map without the objects of a set. */
  ghost predicate Survivors(after: Objects, before: Objects, gone: set<GameObject>) {
    && (forall id :: id in after <==> id in before && before[id] !in gone)
    && (forall id :: id in after ==> after[id] == before[id])
  }

  // ---------- batches ----------

  /** An object and its number. */
  type Entry = (int, GameObject)

  function AddAll(m: Objects, es: seq<Entry>): Objects {
    if es == [] then m else
      var e := es[|es| - 1];
      AddAll(m, es[..|es| - 1])[e.0 := e.1]
  }

  /** The entries that can be added: those whose number is neither in the map nor in an earlier one. */
  function Taken(m: Objects, es: seq<Entry>): seq<Entry> {
    if es == [] then [] else
      var t := Taken(m, es[..|es| - 1]);
      if es[|es| - 1].0 in AddAll(m, t) then t else t + [es[|es| - 1]]
  }

  function ObjectsOf(es: seq<Entry>): seq<GameObject> {
    if es == [] then [] else ObjectsOf(es[..|es| - 1]) + [es[|es| - 1].1]
  }

  lemma {:induction false} ObjectsAt(es: seq<Entry>)
    ensures |ObjectsOf(es)| == |es| && forall j :: 0 <= j < |es| ==> ObjectsOf(es)[j] == es[j].1
  {
    if es != [] { ObjectsAt(es[..|es| - 1]); }
  }

  function RaisedAll(counts: map<int, int>, es: seq<Entry>): map<int, int> {
    if es == [] then counts else Raised(RaisedAll(counts, es[..|es| - 1]), es[|es| - 1].1)
  }

  /** Every entry has a number that the map with the entries before it does not have. */
  predicate AllNew(m: Objects, es: seq<Entry>) {
    forall j :: 0 <= j < |es| ==> es[j].0 !in AddAll(m, es[..j])
  }

  lemma AddOne(m: Objects, es: seq<Entry>, e: Entry)
    ensures AddAll(m, es + [e]) == AddAll(m, es)[e.0 := e.1]
    ensures Taken(m, es + [e]) == if e.0 in AddAll(m, Taken(m, es)) then Taken(m, es) else Taken(m, es) + [e]
    ensures ObjectsOf(es + [e]) == ObjectsOf(es) + [e.1]
  {
    assert (es + [e])[..|es|] == es;
  }

  /** Entry i is the first of its number. */
  predicate FirstOfNumber(es: seq<Entry>, i: nat)
    requires i < |es|
  {
    forall j :: 0 <= j < i ==> es[j].0 != es[i].0
  }

  predicate Named(es: seq<Entry>, id: int) {
    exists j :: 0 <= j < |es| && es[j].0 == id
  }

  lemma NamedMore(es: seq<Entry>, e: Entry, id: int)
    ensures Named(es + [e], id) <==> Named(es, id) || e.0 == id
  {
    if j :| 0 <= j < |es| && es[j].0 == id { assert (es + [e])[j].0 == id; }
    assert (es + [e])[|es|].0 == e.0;
  }

  /** What one more entry adds. */
  lemma TakeOne(m: Objects, es: seq<Entry>, e: Entry)
    ensures var t, t' := Taken(m, es), Taken(m, es + [e]);
      if e.0 in AddAll(m, t) then t' == t else t' == t + [e] && AddAll(m, t') == AddAll(m, t)[e.0 := e.1]
  {
    AddOne(m, es, e);
    hide Taken;
    AddOne(m, Taken(m, es), e);
  }

  /** A batch adds exactly its numbers, and every number that was there keeps its object. */
  lemma {:induction false} BatchNumbers(m: Objects, es: seq<Entry>, id: int)
    ensures var after := AddAll(m, Taken(m, es));
      && (id in after <==> id in m || Named(es, id))
      && (id in m ==> after[id] == m[id])
  {
    if es != [] {
      var before, e := es[..|es| - 1], es[|es| - 1];
      assert es == before + [e];
      BatchNumbers(m, before, id);
      hide AddAll, Taken, Named;
      BatchNumbers(m, before, e.0);
      TakeOne(m, before, e);
      NamedMore(before, e, id);
    }
  }

  /** A number that was free goes to the first entry that carries it. */
  lemma {:induction false} BatchGivesToTheFirst(m: Objects, es: seq<Entry>, i: nat)
    requires i < |es| && es[i].0 !in m && FirstOfNumber(es, i)
    ensures var t := Taken(m, es);
      es[i] in t && es[i].0 in AddAll(m, t) && AddAll(m, t)[es[i].0] == es[i].1
  {
    var before, e := es[..|es| - 1], es[|es| - 1];
    assert es == before + [e];
    BatchNumbers(m, before, e.0);
    hide AddAll, Taken;
    TakeOne(m, before, e);
    if i < |before| {
      assert before[i] == es[i] && FirstOfNumber(before, i);
      BatchGivesToTheFirst(m, before, i);
      assert e.0 == es[i].0 ==> Named(before, e.0);
    } else {
      assert !Named(before, e.0) by { assert forall j :: 0 <= j < i ==> before[j] == es[j]; }
    }
  }

  lemma RaiseOne(counts: map<int, int>, es: seq<Entry>, e: Entry)
    ensures RaisedAll(counts, es + [e]) == Raised(RaisedAll(counts, es), e.1)
  {
    assert (es + [e])[..|es|] == es;
  }

  lemma NothingAdded(m: Objects, counts: map<int, int>)
    ensures AddAll(m, []) == m && Taken(m, []) == [] && RaisedAll(counts, []) == counts
  {
  }

  /** A batch of which es have been looked at: t were taken, and those not looked at yet are still behind them. */
  predicate Sifted(m: Objects, objects: seq<GameObject>, es: seq<Entry>, t: seq<Entry>, left: seq<GameObject>) {
    && |es| <= |objects| && ObjectsOf(es) == objects[..|es|] && t == Taken(m, es)
    && left == ObjectsOf(t) + objects[|es|..]
  }

  /** vector::erase at a position. */
  function EraseAt<T>(s: seq<T>, i: nat): (r: seq<T>)
    requires i < |s|
    ensures |r| == |s| - 1
  {
    s[..i] + s[i + 1..]
  }

  lemma Between<T>(a: seq<T>, s: seq<T>, k: nat)
    requires k < |s|
    ensures var l := a + s[k..];
      |a| < |l| && l[|a|] == s[k] && l == (a + [s[k]]) + s[k + 1..] && EraseAt(l, |a|) == a + s[k + 1..]
    ensures s[..k + 1] == s[..k] + [s[k]]
  {
  }

  /** The next one is taken and stays in the batch, or dropped from it. */
  lemma SiftNext(m: Objects, objects: seq<GameObject>, es: seq<Entry>, t: seq<Entry>, left: seq<GameObject>, e: Entry)
    requires Sifted(m, objects, es, t, left) && |es| < |objects| && e.1 == objects[|es|]
    ensures |t| < |left| && left[|t|] == e.1
    ensures if e.0 in AddAll(m, t) then Sifted(m, objects, es + [e], t, EraseAt(left, |t|))
            else Sifted(m, objects, es + [e], t + [e], left) && AddAll(m, t + [e]) == AddAll(m, t)[e.0 := e.1]
  {
    AddOne(m, es, e);
    AddOne(m, t, e);
    ObjectsAt(t);
    Between(ObjectsOf(t), objects, |es|);
    hide Taken, AddAll, EraseAt, ObjectsOf;
  }

  lemma SiftedAll(m: Objects, objects: seq<GameObject>, es: seq<Entry>, t: seq<Entry>, left: seq<GameObject>)
    requires Sifted(m, objects, es, t, left)
    ensures |t| < |left| <==> |es| < |objects|
    ensures |es| == |objects| ==> ObjectsOf(es) == objects && left == ObjectsOf(t)
  {
    ObjectsAt(es);
    ObjectsAt(t);
    if |es| == |objects| {
      assert objects[..|es|] == objects && objects[|es|..] == [];
    }
  }

  lemma TakenIs(m: Objects, objects: seq<GameObject>, es: seq<Entry>, t: seq<Entry>, left: seq<GameObject>)
    requires Sifted(m, objects, es, t, left) && |t| >= |left|
    ensures t == Taken(m, es) && left == ObjectsOf(t) && ObjectsOf(es) == objects
  {
    SiftedAll(m, objects, es, t, left);
  }

  /** A batch being registered. */
  predicate Registering(m: Objects, objects: seq<GameObject>, es: seq<Entry>, t: seq<Entry>, left: seq<GameObject>,
                        now: Objects)
  {
    Sifted(m, objects, es, t, left) && now == AddAll(m, t)
  }

  lemma RegisterStart(m: Objects, objects: seq<GameObject>)
    ensures Registering(m, objects, [], [], objects, m)
  {
    SiftStart(m, objects);
  }

  lemma RegisterLook(m: Objects, objects: seq<GameObject>, es: seq<Entry>, t: seq<Entry>, left: seq<GameObject>,
                     now: Objects)
    requires Registering(m, objects, es, t, left, now)
    ensures |es| <= |objects| && (|t| < |left| <==> |es| < |objects|)
    ensures |es| < |objects| ==> left[|t|] == objects[|es|]
  {
    SiftedAll(m, objects, es, t, left);
    if |es| < |objects| { SiftNext(m, objects, es, t, left, (0, objects[|es|])); }
  }

  lemma RegisterNext(m: Objects, objects: seq<GameObject>, es: seq<Entry>, t: seq<Entry>, left: seq<GameObject>,
                     now: Objects, e: Entry)
    requires Registering(m, objects, es, t, left, now) && |es| < |objects| && e.1 == objects[|es|]
    ensures |t| < |left|
    ensures if e.0 in now then Registering(m, objects, es + [e], t, EraseAt(left, |t|), now)
            else Registering(m, objects, es + [e], t + [e], left, now[e.0 := e.1])
  {
    SiftNext(m, objects, es, t, left, e);
  }

  lemma RegisterEnd(m: Objects, objects: seq<GameObject>, es: seq<Entry>, t: seq<Entry>, left: seq<GameObject>,
                    now: Objects)
    requires Registering(m, objects, es, t, left, now) && |t| >= |left|
    ensures t == Taken(m, es) && AllNew(m, t) && ObjectsOf(es) == objects && left == ObjectsOf(t) && now == AddAll(m, t)
    ensures (forall e :: e in t ==> e in es) && (forall o :: o in left ==> o in objects)
    ensures forall e :: e in t ==> e.1 in objects
  {
    TakenIs(m, objects, es, t, left);
    TakenNew(m, es);
    hide Taken, AddAll, AllNew;
    ObjectsAt(es);
    ObjectsAt(t);
    forall e | e in t ensures e.1 in objects {
      var j :| 0 <= j < |es| && es[j] == e;
      assert ObjectsOf(es)[j] == e.1;
    }
    forall o | o in left ensures o in objects {
      var j :| 0 <= j < |left| && left[j] == o;
      assert t[j].1 == o && t[j] in t;
    }
  }

  /** A batch being spawned: of the first `seen` entries t were taken, indexed and counted. */
  predicate Spawning(n: Objects, counts: map<int, int>, batch: seq<GameObject>, es: seq<Entry>, seen: nat,
                     t: seq<Entry>, left: seq<GameObject>, npcs: Objects, spawnCounts: map<int, int>)
  {
    && seen <= |es| && ObjectsOf(es) == batch && Sifted(n, batch, es[..seen], t, left)
    && npcs == AddAll(n, t) && spawnCounts == RaisedAll(counts, t)
  }

  lemma SpawnStart(n: Objects, counts: map<int, int>, batch: seq<GameObject>, es: seq<Entry>)
    requires ObjectsOf(es) == batch
    ensures Spawning(n, counts, batch, es, 0, [], batch, n, counts)
  {
    SiftStart(n, batch);
    NothingAdded(n, counts);
    assert es[..0] == [];
  }

  lemma SpawnNext(n: Objects, counts: map<int, int>, batch: seq<GameObject>, es: seq<Entry>, seen: nat,
                  t: seq<Entry>, left: seq<GameObject>, npcs: Objects, spawnCounts: map<int, int>)
    requires Spawning(n, counts, batch, es, seen, t, left, npcs, spawnCounts)
    ensures |t| < |left| <==> seen < |es|
    ensures seen == |es| ==>
      var all := Taken(n, es);
      left == ObjectsOf(all) && npcs == AddAll(n, all) && spawnCounts == RaisedAll(counts, all)
    ensures seen < |es| ==>
      var e := es[seen];
      && left[|t|] == e.1
      && if e.0 in npcs then Spawning(n, counts, batch, es, seen + 1, t, EraseAt(left, |t|), npcs, spawnCounts)
         else Spawning(n, counts, batch, es, seen + 1, t + [e], left, npcs[e.0 := e.1], Raised(spawnCounts, e.1))
  {
    ObjectsAt(es);
    SiftedAll(n, batch, es[..seen], t, left);
    if seen == |es| {
      assert es[..seen] == es;
      TakenIs(n, batch, es, t, left);
    } else {
      assert es[..seen + 1] == es[..seen] + [es[seen]];
      SiftNext(n, batch, es[..seen], t, left, es[seen]);
      RaiseOne(counts, t, es[seen]);
    }
  }

  lemma SiftStart(m: Objects, objects: seq<GameObject>)
    ensures Sifted(m, objects, [], [], objects) && AddAll(m, []) == m
  {
    assert ObjectsOf([]) == objects[..0] && objects[0..] == objects;
  }

  lemma {:induction false} TakenNew(m: Objects, es: seq<Entry>)
    ensures AllNew(m, Taken(m, es)) && forall e :: e in Taken(m, es) ==> e in es
  {
    if es != [] {
      TakenNew(m, es[..|es| - 1]);
      var t, r := Taken(m, es[..|es| - 1]), Taken(m, es);
      forall j | 0 <= j < |r| ensures r[j].0 !in AddAll(m, r[..j]) {
        assert r[..j] == t[..j];
      }
    }
  }

  lemma {:induction false} AddAllKeys(m: Objects, es: seq<Entry>, n: Objects, id: int)
    requires forall i :: i in n ==> i in m
    ensures id in AddAll(n, es) ==> id in AddAll(m, es)
  {
    if es != [] { AddAllKeys(m, es[..|es| - 1], n, id); }
  }

  lemma NewBefore(m: Objects, es: seq<Entry>)
    requires AllNew(m, es) && es != []
    ensures var before := es[..|es| - 1];
      AllNew(m, before) && es[|es| - 1].0 !in AddAll(m, before) && es == before + [es[|es| - 1]]
  {
    var before := es[..|es| - 1];
    hide AddAll;
    forall j | 0 <= j < |before| ensures before[j].0 !in AddAll(m, before[..j]) {
      assert before[..j] == es[..j];
    }
  }

  /** Entries that are all new to a map are all taken, also by a smaller map. */
  lemma {:induction false} AllTaken(m: Objects, es: seq<Entry>, n: Objects)
    requires AllNew(m, es) && forall id :: id in n ==> id in m
    ensures Taken(n, es) == es
  {
    if es != [] {
      var before := es[..|es| - 1];
      NewBefore(m, es);
      hide AllNew;
      AllTaken(m, before, n);
      AddAllKeys(m, before, n, es[|es| - 1].0);
      var e := es[|es| - 1];
      AddOne(n, before, e);
      hide Taken, AddAll;
      assert e.0 !in AddAll(n, before);
      assert Taken(n, before + [e]) == before + [e];
    }
  }

  /** Adding new NPCs to the objects adds them to the index of NPCs and to the counts. */
  lemma {:induction false} NpcsAdded(m: Objects, es: seq<Entry>, counts: map<int, int>)
    requires AllNew(m, es) && CountsRight(counts, m) && forall e :: e in es ==> e.1.kind == Npc
    ensures OfKind(AddAll(m, es), Npc) == AddAll(OfKind(m, Npc), es)
    ensures OfKind(AddAll(m, es), Projectile) == OfKind(m, Projectile)
    ensures CountsRight(RaisedAll(counts, es), AddAll(m, es))
  {
    if es != [] {
      var before, e := es[..|es| - 1], es[|es| - 1];
      NewBefore(m, es);
      hide AllNew;
      NpcsAdded(m, before, counts);
      OfKindAdd(AddAll(m, before), e.0, e.1, Npc);
      OfKindAdd(AddAll(m, before), e.0, e.1, Projectile);
      CountsAdd(RaisedAll(counts, before), AddAll(m, before), e.0, e.1);
    }
  }

  /** Position k is the first at which the batch names its object. */
  predicate FirstAt(objects: seq<GameObject>, k: nat)
    requires k < |objects|
  {
    objects[k] !in objects[..k]
  }

  /** The entries give their objects' numbers, which are not 0. */
  ghost predicate Numbered(es: seq<Entry>)
    reads (set e | e in es :: e.1)`objectId
  {
    forall e :: e in es ==> e.0 != 0 && e.1.objectId == e.0
  }

  lemma NoneNumbered()
    ensures Numbered([])
  {
  }

  lemma NumberedPart(es: seq<Entry>, t: seq<Entry>)
    requires Numbered(es) && forall e :: e in t ==> e in es
    ensures Numbered(t)
  {
  }

  /** Objects that carry the numbers they are registered under. */
  ghost predicate Carry(m: Objects)
    reads m.Values`objectId
  {
    forall id :: id in m ==> id != 0 && m[id].objectId == id
  }

  lemma CarryMore(m: Objects, o: GameObject)
    requires Carry(m) && o.objectId != 0
    ensures Carry(m[o.objectId := o])
  {
  }

  /** An object whose number is free is not registered. */
  lemma CarryFree(m: Objects, o: GameObject)
    requires Carry(m) && o.objectId !in m
    ensures !Registered(m, o)
  {
    assert forall id :: id in m ==> m[id].objectId == id;
  }

  lemma {:induction false} AddAllCarry(m: Objects, es: seq<Entry>)
    requires Carry(m) && Numbered(es)
    ensures Carry(AddAll(m, es))
  {
    if es != [] { AddAllCarry(m, es[..|es| - 1]); }
  }

  lemma ColliderKnown(m: Objects, id: int)
    requires id !in m
    ensures id !in WithCollider(m)
  {
  }

  /** Entry j of a batch, when the ones before it are in the map. */
  lemma NextNew(m: Objects, t: seq<Entry>, j: nat)
    requires j < |t| && AllNew(m, t) && Carry(m) && Numbered(t)
    ensures t[j].0 !in AddAll(m, t[..j]) && !Registered(AddAll(m, t[..j]), t[j].1)
    ensures AddAll(m, t[..j + 1]) == AddAll(m, t[..j])[t[j].0 := t[j].1]
  {
    NumberedBefore(t, j);
    NewAt(m, t, j);
    hide AddAll, AllNew, Carry, Numbered, Registered;
    AddAllCarry(m, t[..j]);
    CarryFree(AddAll(m, t[..j]), t[j].1);
  }

  lemma NewAt(m: Objects, t: seq<Entry>, j: nat)
    requires j < |t| && AllNew(m, t)
    ensures t[j].0 !in AddAll(m, t[..j]) && AddAll(m, t[..j + 1]) == AddAll(m, t[..j])[t[j].0 := t[j].1]
  {
    AddOne(m, t[..j], t[j]);
    hide AddAll;
    assert t[..j + 1] == t[..j] + [t[j]];
  }

  lemma NumberedBefore(t: seq<Entry>, j: nat)
    requires j < |t| && Numbered(t)
    ensures Numbered(t[..j]) && t[j].1.objectId == t[j].0
  {
    assert t[j] in t;
  }

  /** What adding a batch of new NPCs makes of the indexes. */
  lemma BatchAdded(m: Objects, t: seq<Entry>, counts: map<int, int>)
    requires AllNew(m, t) && CountsRight(counts, m) && forall e :: e in t ==> e.1.kind == Npc
    ensures Taken(OfKind(m, Npc), t) == t
    ensures OfKind(AddAll(m, t), Npc) == AddAll(OfKind(m, Npc), t)
    ensures OfKind(AddAll(m, t), Projectile) == OfKind(m, Projectile)
    ensures CountsRight(RaisedAll(counts, t), AddAll(m, t))
    ensures t == [] ==> AddAll(OfKind(m, Npc), t) == OfKind(m, Npc) && RaisedAll(counts, t) == counts
  {
    NpcsAdded(m, t, counts);
    AllTaken(m, t, OfKind(m, Npc));
  }

  function SetOf(s: seq<GameObject>): set<GameObject> {
    set o | o in s
  }

  lemma OneMore(s: seq<GameObject>, j: nat)
    requires j < |s|
    ensures SetOf(s[..j + 1]) == SetOf(s[..j]) + {s[j]}
  {
    assert s[..j + 1] == s[..j] + [s[j]];
  }

  /** Taking one number out of the map and one object out of the list fits exactly if that object has the number. */
  lemma ListsRemoved(list: seq<GameObject>, m: Objects, id: int, o: GameObject)
    requires Lists(list, m) && id in m && Injective(m)
    ensures Lists(Erase(list, o), m - {id}) <==> m[id] == o
  {
    if m[id] == o {
      ListsRemove(list, m, id);
    } else {
      Erased(list, o);
      assert m[id] in Erase(list, o);
      assert !Registered(m - {id}, m[id]);
    }
  }

  /** The indexes after an object has been taken out. */
  lemma IndexesRemove(m: Objects, id: int, counts: map<int, int>)
    requires id in m && CountsRight(counts, m)
    ensures var o := m[id];
      && OfKind(m - {id}, Npc) == (if o.kind == Npc then OfKind(m, Npc) - {id} else OfKind(m, Npc))
      && (id in OfKind(m, Npc) <==> o.kind == Npc)
      && OfKind(m - {id}, Projectile)
           == (if o.kind == Projectile then OfKind(m, Projectile) - {id} else OfKind(m, Projectile))
      && WithCollider(m - {id}) == WithCollider(m) - {id}
      && CountsRight(if o.kind == Npc then Lowered(counts, o) else counts, m - {id})
  {
    OfKindRemove(m, id, Npc);
    OfKindRemove(m, id, Projectile);
    CountsRemove(counts, m, id);
  }

  /** The indexes after an object has been added. */
  lemma IndexesAdd(m: Objects, id: int, o: GameObject, counts: map<int, int>)
    requires id !in m && CountsRight(counts, m)
    ensures var after := m[id := o];
      && OfKind(after, Npc) == (if o.kind == Npc then OfKind(m, Npc)[id := o] else OfKind(m, Npc))
      && OfKind(after, Projectile)
           == (if o.kind == Projectile then OfKind(m, Projectile)[id := o] else OfKind(m, Projectile))
      && WithCollider(after) == (if o.hasCollider then WithCollider(m)[id := o] else WithCollider(m))
      && id !in OfKind(m, Npc) && id !in OfKind(m, Projectile) && id !in WithCollider(m)
      && CountsRight(if o.kind == Npc then Raised(counts, o) else counts, after)
  {
    OfKindAdd(m, id, o, Npc);
    OfKindAdd(m, id, o, Projectile);
    WithColliderAdd(m, id, o);
    CountsAdd(counts, m, id, o);
  }

  /** The objects set aside, those in one list and those in the other. */
  lemma SetAside(all: seq<GameObject>, waiting: seq<GameObject>, dead: set<GameObject>)
    requires forall o :: o in dead ==> o in all + waiting
    ensures SetOf(Pick(all, dead) + Pick(waiting, dead)) == dead
    ensures forall o :: o in Pick(waiting, dead) ==> o in Pick(all, dead) + Pick(waiting, dead)
    ensures forall o :: o in Pick(all, dead) + Pick(waiting, dead) ==> o in all + waiting
    ensures Minus(all + Minus(waiting, dead), dead) == Minus(all + waiting, dead)
  {
    Picked(all, dead);
    Picked(waiting, dead);
    MinusConcat(all, waiting, dead);
    MinusConcat(all, Minus(waiting, dead), dead);
    MinusNothing(Minus(waiting, dead), dead);
  }

  lemma SurvivorsNotExpired(after: Objects, before: Objects, list: seq<GameObject>, now: int)
    requires Lists(list, before) && Survivors(after, before, Expired(list, now))
    ensures forall id :: id in after <==> id in before && !before[id].IsExpired(now)
  {
  }
}
