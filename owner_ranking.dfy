/** The ranking behind `getTopThreePetOwnersAtAge`. An aggregation over
    the owners collection groups ALL owners by their total pet count,
    sorts the groups largest count first and resolves every owner's pets;
    a loop then keeps, in each group, the owners of the requested age, and
    the first three groups are returned. */
module OwnerRanking {
  import opened Seqs
  import opened Schemas

  /** An owner as the aggregation returns it: its pets resolved to records. */
  datatype OwnerView = OwnerView(id: ObjectId, name: string, age: int, cats: seq<CatRecord>, dogs: seq<DogRecord>)

  /** A document of the `$group` stage: the count and the set of owner ids. */
  datatype CountGroup = CountGroup(count: nat, ids: set<ObjectId>)

  /** A document after the outer `$lookup`: the group with its owners. */
  datatype OwnerGroup = OwnerGroup(count: nat, ids: set<ObjectId>, owners: seq<OwnerView>)

  /** One entry of the result. */
  datatype TopPetOwnersItem = TopPetOwnersItem(petsCount: nat, owners: seq<OwnerView>)

  /** The `slice(0, 3)` bound. */
  const TOP: nat := 3

  /** `$size: '$cats'` plus `$size: '$dogs'`: stored ids, resolvable or not. */
  function PetsCount(o: Owner): nat { |o.cats| + |o.dogs| }

  function ViewId(v: OwnerView): ObjectId { v.id }

  predicate StrictlyDecreasing(s: seq<nat>)
  {
    forall i, j :: 0 <= i < j < |s| ==> s[i] > s[j]
  }

  /** Puts `k` into its place in a strictly decreasing sequence, at most once. */
  function InsertDesc(k: nat, s: seq<nat>): (r: seq<nat>)
    requires StrictlyDecreasing(s)
    ensures StrictlyDecreasing(r)
    ensures forall x :: x in r <==> x == k || x in s
    ensures |r| <= |s| + 1
  {
    if s == [] then [k]
    else if k > s[0] then DescCons(k, s); [k] + s
    else if k == s[0] then s
    else
      DescTail(s);
      var rest := InsertDesc(k, s[1..]);
      DescCons(s[0], rest);
      [s[0]] + rest
  }

  /** The tail of a strictly decreasing sequence is strictly decreasing
      and lies below its head. */
  lemma DescTail(s: seq<nat>)
    requires StrictlyDecreasing(s) && s != []
    ensures StrictlyDecreasing(s[1..])
    ensures forall x :: x in s[1..] ==> x < s[0]
  {
    var t := s[1..];
    forall i, j | 0 <= i < j < |t| ensures t[i] > t[j] {
      assert t[i] == s[i + 1] && t[j] == s[j + 1];
    }
    forall x | x in t ensures x < s[0] {
      var i :| 0 <= i < |t| && t[i] == x;
      assert s[i + 1] == x;
    }
  }

  /** A head above every element of a strictly decreasing sequence keeps
      it strictly decreasing. */
  lemma DescCons(h: nat, s: seq<nat>)
    requires StrictlyDecreasing(s)
    requires forall x :: x in s ==> x < h
    ensures StrictlyDecreasing([h] + s)
  {
    var r := [h] + s;
    forall i, j | 0 <= i < j < |r| ensures r[i] > r[j] {
      assert r[j] == s[j - 1] && s[j - 1] in s;
      if i > 0 {
        assert r[i] == s[i - 1];
      }
    }
  }

  /** The `_id` keys the `$group` stage produces, in the order that
      `$sort: { _id: -1 }` puts them: every total pet count once, largest
      first. */
  function SortedPetsCounts(owners: seq<Owner>): (r: seq<nat>)
    ensures StrictlyDecreasing(r)
    ensures forall n :: n in r <==> exists o :: o in owners && PetsCount(o) == n
    ensures |r| <= |owners|
  {
    if owners == [] then []
    else
      assert owners == [owners[0]] + owners[1..];
      InsertDesc(PetsCount(owners[0]), SortedPetsCounts(owners[1..]))
  }

  /** The `$addToSet: '$_id'` accumulator of the group with count `n`. */
  function IdsWithPetsCount(owners: seq<Owner>, n: nat): set<ObjectId>
  {
    set o | o in owners && PetsCount(o) == n :: o.id
  }

  /** The `$group` and `$sort` stages. */
  function GroupAndSort(owners: seq<Owner>): (r: seq<CountGroup>)
    ensures |r| == |SortedPetsCounts(owners)|
  {
    var ks := SortedPetsCounts(owners);
    seq(|ks|, i requires 0 <= i < |ks| => CountGroup(ks[i], IdsWithPetsCount(owners, ks[i])))
  }

  /** The groups are ordered largest count first, each holds the ids of
      exactly the owners with its count, none is empty, and every owner
      falls in the group of its own count. */
  lemma GroupAndSortGroups(owners: seq<Owner>)
    ensures var r := GroupAndSort(owners);
      && (forall i, j :: 0 <= i < j < |r| ==> r[i].count > r[j].count)
      && (forall i, id :: 0 <= i < |r| ==>
            (id in r[i].ids <==> exists o :: o in owners && PetsCount(o) == r[i].count && o.id == id))
      && (forall i :: 0 <= i < |r| ==> r[i].ids != {})
      && (forall o :: o in owners ==> exists i :: 0 <= i < |r| && r[i].count == PetsCount(o) && o.id in r[i].ids)
  {
    var r, ks := GroupAndSort(owners), SortedPetsCounts(owners);
    forall i | 0 <= i < |r| ensures r[i].ids != {} {
      assert ks[i] in ks;
      var o :| o in owners && PetsCount(o) == ks[i];
      assert o.id in r[i].ids;
    }
    forall o | o in owners
      ensures exists i :: 0 <= i < |r| && r[i].count == PetsCount(o) && o.id in r[i].ids
    {
      assert PetsCount(o) in ks;
      var i :| 0 <= i < |ks| && ks[i] == PetsCount(o);
      assert o.id in r[i].ids;
    }
  }

  /** The nested `$lookup` on cats: the stored cats whose id the owner
      lists, in collection order. A dangling id resolves to nothing and a
      repeated id does not repeat the record. */
  function ResolveCats(cats: seq<CatRecord>, ids: seq<ObjectId>): (r: seq<CatRecord>)
    ensures forall c :: c in r <==> c in cats && c.id in ids
    ensures forall c :: multiset(r)[c] <= multiset(cats)[c]
    ensures DistinctBy(cats, CatId) ==> DistinctBy(r, CatId)
  {
    var listed := (c: CatRecord) => c.id in ids;
    FilterMultiset<CatRecord>(cats, listed);
    FilterDistinctBy(cats, listed, CatId);
    Filter<CatRecord>(cats, listed)
  }

  /** The nested `$lookup` on dogs, likewise. */
  function ResolveDogs(dogs: seq<DogRecord>, ids: seq<ObjectId>): (r: seq<DogRecord>)
    ensures forall d :: d in r <==> d in dogs && d.id in ids
    ensures forall d :: multiset(r)[d] <= multiset(dogs)[d]
    ensures DistinctBy(dogs, DogId) ==> DistinctBy(r, DogId)
  {
    var listed := (d: DogRecord) => d.id in ids;
    FilterMultiset<DogRecord>(dogs, listed);
    FilterDistinctBy(dogs, listed, DogId);
    Filter<DogRecord>(dogs, listed)
  }

  /** An owner with its `cats` and `dogs` resolved against the store. */
  function View(store: Store, o: Owner): (v: OwnerView)
    ensures v.id == o.id && v.name == o.name && v.age == o.age
  {
    OwnerView(o.id, o.name, o.age, ResolveCats(store.cats, o.cats), ResolveDogs(store.dogs, o.dogs))
  }

  /** A view holds exactly the stored cats and dogs whose ids the owner
      lists. */
  lemma ViewPets(store: Store, o: Owner)
    ensures forall c :: c in View(store, o).cats <==> c in store.cats && c.id in o.cats
    ensures forall d :: d in View(store, o).dogs <==> d in store.dogs && d.id in o.dogs
  {
  }

  function Views(store: Store, os: seq<Owner>): seq<OwnerView>
  {
    seq(|os|, i requires 0 <= i < |os| => View(store, os[i]))
  }

  /** The outer `$lookup`: the stored owners whose id is in the group's set,
      each with its pets resolved; with unique owner ids no owner twice. */
  function LookupOwners(store: Store, ids: set<ObjectId>): (vs: seq<OwnerView>)
    ensures forall v :: v in vs <==> exists o :: o in store.owners && o.id in ids && v == View(store, o)
    ensures DistinctBy(store.owners, OwnerId) ==> DistinctBy(vs, ViewId)
  {
    var inGroup := (o: Owner) => o.id in ids;
    var os := Filter(store.owners, inGroup);
    FilterDistinctBy(store.owners, inGroup, OwnerId);
    ViewsMembership(store, os);
    Views(store, os)
  }

  lemma ViewsMembership(store: Store, os: seq<Owner>)
    ensures forall v :: v in Views(store, os) <==> exists o :: o in os && v == View(store, o)
  {
    var vs := Views(store, os);
    assert forall v :: v in vs ==> exists i :: 0 <= i < |os| && v == View(store, os[i]);
    forall o | o in os ensures View(store, o) in vs {
      var i :| 0 <= i < |os| && os[i] == o;
      assert vs[i] == View(store, o);
    }
  }

  /** The whole aggregation pipeline. */
  function Aggregate(store: Store): (r: seq<OwnerGroup>)
    ensures |r| == |GroupAndSort(store.owners)|
  {
    var gs := GroupAndSort(store.owners);
    seq(|gs|, i requires 0 <= i < |gs| => OwnerGroup(gs[i].count, gs[i].ids, LookupOwners(store, gs[i].ids)))
  }

  /** The aggregation yields a document for every owner's total pet
      count, and every document's count is some owner's. */
  lemma AggregateCounts(store: Store)
    ensures var r := Aggregate(store);
      && (forall o :: o in store.owners ==> exists i :: 0 <= i < |r| && r[i].count == PetsCount(o))
      && (forall i :: 0 <= i < |r| ==> r[i].count in AllCounts(store.owners))
  {
    var r, gs, ks := Aggregate(store), GroupAndSort(store.owners), SortedPetsCounts(store.owners);
    forall i | 0 <= i < |r| ensures r[i].count == ks[i] {
      assert gs[i] == CountGroup(ks[i], IdsWithPetsCount(store.owners, ks[i]));
    }
    CountsCover(store.owners, ks, r);
  }

  lemma CountsCover(owners: seq<Owner>, ks: seq<nat>, r: seq<OwnerGroup>)
    requires forall k :: k in ks <==> exists o :: o in owners && PetsCount(o) == k
    requires |r| == |ks| && forall i :: 0 <= i < |r| ==> r[i].count == ks[i]
    ensures forall o :: o in owners ==> exists i :: 0 <= i < |r| && r[i].count == PetsCount(o)
    ensures forall i :: 0 <= i < |r| ==> r[i].count in AllCounts(owners)
  {
    forall o | o in owners
      ensures exists i :: 0 <= i < |r| && r[i].count == PetsCount(o)
    {
      assert PetsCount(o) in ks;
      var i :| 0 <= i < |ks| && ks[i] == PetsCount(o);
      assert r[i].count == PetsCount(o);
    }
    forall i | 0 <= i < |r|
      ensures r[i].count in AllCounts(owners)
    {
      assert ks[i] in ks;
    }
  }

  /** The aggregation lists its documents largest count first, each with
      the stored owners that have its count, their pets resolved. */
  lemma AggregateGroups(store: Store)
    requires DistinctBy(store.owners, OwnerId)
    ensures var r := Aggregate(store);
      && (forall i, j :: 0 <= i < j < |r| ==> r[i].count > r[j].count)
      && (forall i, v :: 0 <= i < |r| ==>
            (v in r[i].owners <==> exists o :: o in store.owners && PetsCount(o) == r[i].count && v == View(store, o)))
  {
    var r, gs, ks := Aggregate(store), GroupAndSort(store.owners), SortedPetsCounts(store.owners);
    forall i | 0 <= i < |r|
      ensures r[i] == OwnerGroup(ks[i], IdsWithPetsCount(store.owners, ks[i]), LookupOwners(store, IdsWithPetsCount(store.owners, ks[i])))
    {
      assert gs[i] == CountGroup(ks[i], IdsWithPetsCount(store.owners, ks[i]));
    }
    forall i, v | 0 <= i < |r|
      ensures v in r[i].owners <==> exists o :: o in store.owners && PetsCount(o) == r[i].count && v == View(store, o)
    {
      LookupByCount(store, ks[i], v);
    }
  }

  /** Looking up the ids of the owners with a count yields exactly those
      owners, with their pets resolved. */
  lemma LookupByCount(store: Store, n: nat, v: OwnerView)
    requires DistinctBy(store.owners, OwnerId)
    ensures v in LookupOwners(store, IdsWithPetsCount(store.owners, n)) <==>
      exists o :: o in store.owners && PetsCount(o) == n && v == View(store, o)
  {
    var ids := IdsWithPetsCount(store.owners, n);
    forall id ensures id in ids <==> exists p :: p in store.owners && PetsCount(p) == n && p.id == id {
    }
    LookupIds(store, n, ids, LookupOwners(store, ids), v);
  }

  lemma LookupIds(store: Store, n: nat, ids: set<ObjectId>, vs: seq<OwnerView>, v: OwnerView)
    requires DistinctBy(store.owners, OwnerId)
    requires forall id :: id in ids <==> exists p :: p in store.owners && PetsCount(p) == n && p.id == id
    requires forall v :: v in vs <==> exists o :: o in store.owners && o.id in ids && v == View(store, o)
    ensures v in vs <==> exists o :: o in store.owners && PetsCount(o) == n && v == View(store, o)
  {
    if v in vs {
      var o :| o in store.owners && o.id in ids && v == View(store, o);
      SameIdSameCount(store, n, ids, o);
    }
    forall o | o in store.owners && PetsCount(o) == n
      ensures View(store, o) in vs
    {
      assert o.id in ids;
    }
  }

  lemma SameIdSameCount(store: Store, n: nat, ids: set<ObjectId>, o: Owner)
    requires DistinctBy(store.owners, OwnerId)
    requires forall id :: id in ids <==> exists p :: p in store.owners && PetsCount(p) == n && p.id == id
    requires o in store.owners && o.id in ids
    ensures PetsCount(o) == n
  {
    var p :| p in store.owners && PetsCount(p) == n && p.id == o.id;
    var k :| 0 <= k < |store.owners| && store.owners[k] == p;
    DistinctByUnique(store.owners, OwnerId, k);
    assert OwnerId(o) == OwnerId(p);
  }

  /** `owner.owners.filter(owner => owner.age == ownerAge)`. */
  function AtAge(vs: seq<OwnerView>, ownerAge: int): (r: seq<OwnerView>)
    ensures forall v :: v in r <==> v in vs && v.age == ownerAge
    ensures DistinctBy(vs, ViewId) ==> DistinctBy(r, ViewId)
  {
    var sameAge := (v: OwnerView) => v.age == ownerAge;
    FilterDistinctBy(vs, sameAge, ViewId);
    Filter(vs, sameAge)
  }

  /** The entry the loop pushes for one aggregated group. */
  function Entry(g: OwnerGroup, ownerAge: int): (e: TopPetOwnersItem)
    ensures e.petsCount == g.count
    ensures forall v :: v in e.owners <==> v in g.owners && v.age == ownerAge
  {
    TopPetOwnersItem(g.count, AtAge(g.owners, ownerAge))
  }

  /** The result of `getTopThreePetOwnersAtAge`, as a function of the store. */
  function TopOwners(store: Store, ownerAge: int): (r: seq<TopPetOwnersItem>)
    ensures |r| <= TOP
    ensures forall i, j :: 0 <= i < j < |r| ==> r[i].petsCount > r[j].petsCount
    ensures forall i, v :: 0 <= i < |r| && v in r[i].owners ==> v.age == ownerAge
  {
    var gs := Aggregate(store);
    var n := if |gs| <= TOP then |gs| else TOP;
    seq(n, i requires 0 <= i < n => Entry(gs[i], ownerAge))
  }

  /** `getTopThreePetOwnersAtAge`: the loop that pushes one entry per
      aggregated group, then `slice(0, 3)`. */
  method TopThreePetOwnersAtAge(store: Store, ownerAge: int) returns (top: seq<TopPetOwnersItem>)
    ensures top == TopOwners(store, ownerAge)
    ensures |top| <= TOP
    ensures forall i, j :: 0 <= i < j < |top| ==> top[i].petsCount > top[j].petsCount
    ensures forall i, v :: 0 <= i < |top| && v in top[i].owners ==> v.age == ownerAge
  {
    var owners := Aggregate(store);
    var result: seq<TopPetOwnersItem> := [];
    for k := 0 to |owners|
      invariant |result| == k
      invariant forall i :: 0 <= i < k ==> result[i] == Entry(owners[i], ownerAge)
    {
      result := result + [Entry(owners[k], ownerAge)];
    }
    top := if |result| <= TOP then result else result[..TOP];
    assert top == TopOwners(store, ownerAge);
  }

  /** The result unfolded: entry `i` is built from the `i`-th sorted count. */
  lemma TopOwnersUnfold(store: Store, ownerAge: int)
    ensures var r, ks := TopOwners(store, ownerAge), SortedPetsCounts(store.owners);
      && |r| == (if |ks| <= TOP then |ks| else TOP)
      && forall i :: 0 <= i < |r| ==>
           && r[i].petsCount == ks[i]
           && r[i].owners == AtAge(LookupOwners(store, IdsWithPetsCount(store.owners, ks[i])), ownerAge)
  {
  }

  // ---------------------------------------------------------------------
  // Which groups occupy the three slots

  /** The distinct total pet counts of the owners. */
  ghost function AllCounts(owners: seq<Owner>): set<nat>
  {
    set o | o in owners :: PetsCount(o)
  }

  /** The distinct total pet counts larger than `n`. */
  ghost function CountsAbove(owners: seq<Owner>, n: nat): set<nat>
  {
    set o | o in owners && PetsCount(o) > n :: PetsCount(o)
  }

  /** The first `j` counts as a set. */
  ghost function Prefix(ks: seq<nat>, j: nat): set<nat>
    requires j <= |ks|
  {
    set m | 0 <= m < j :: ks[m]
  }

  lemma {:induction false} PrefixCard(ks: seq<nat>, j: nat)
    requires StrictlyDecreasing(ks) && j <= |ks|
    ensures |Prefix(ks, j)| == j
  {
    if j > 0 {
      PrefixCard(ks, j - 1);
      assert Prefix(ks, j) == Prefix(ks, j - 1) + {ks[j - 1]};
      assert ks[j - 1] !in Prefix(ks, j - 1);
    }
  }

  /** A count of some owner stands in the sorted counts at the position
      equal to the number of distinct larger counts. */
  lemma RankOfCount(owners: seq<Owner>, n: nat) returns (j: nat)
    requires n in AllCounts(owners)
    ensures j < |SortedPetsCounts(owners)| && SortedPetsCounts(owners)[j] == n
    ensures |CountsAbove(owners, n)| == j
  {
    var ks := SortedPetsCounts(owners);
    var o :| o in owners && PetsCount(o) == n;
    assert n in ks;
    j :| 0 <= j < |ks| && ks[j] == n;
    AboveIsPrefix(owners, ks, n, j);
    PrefixCard(ks, j);
  }

  /** Over keys that are strictly decreasing and are exactly the counts,
      the counts above the `j`-th key are the first `j` keys. */
  lemma AboveIsPrefix(owners: seq<Owner>, ks: seq<nat>, n: nat, j: nat)
    requires StrictlyDecreasing(ks)
    requires forall k :: k in ks <==> exists o :: o in owners && PetsCount(o) == k
    requires j < |ks| && ks[j] == n
    ensures CountsAbove(owners, n) == Prefix(ks, j)
  {
    forall k | k in CountsAbove(owners, n)
      ensures k in Prefix(ks, j)
    {
      var p :| p in owners && PetsCount(p) > n && PetsCount(p) == k;
      assert k in ks;
      var m :| 0 <= m < |ks| && ks[m] == k;
      assert m < j;
    }
    forall m | 0 <= m < j
      ensures ks[m] in CountsAbove(owners, n)
    {
      assert ks[m] in ks;
      var p :| p in owners && PetsCount(p) == ks[m];
      assert PetsCount(p) > n;
    }
  }

  /** There are as many entries as distinct total pet counts, at most
      three, and entry `i` carries the count that exactly `i` distinct
      counts of owners, of any age, exceed. */
  lemma TopOwnersCounts(store: Store, ownerAge: int)
    ensures var r, all := TopOwners(store, ownerAge), AllCounts(store.owners);
      && |r| == (if |all| <= TOP then |all| else TOP)
      && forall i :: 0 <= i < |r| ==>
           r[i].petsCount in all && |CountsAbove(store.owners, r[i].petsCount)| == i
  {
    var r, ks := TopOwners(store, ownerAge), SortedPetsCounts(store.owners);
    TopOwnersUnfold(store, ownerAge);
    assert AllCounts(store.owners) == Prefix(ks, |ks|) by {
      forall n | n in AllCounts(store.owners) ensures n in Prefix(ks, |ks|) {
        assert n in ks;
      }
      forall m | 0 <= m < |ks| ensures ks[m] in AllCounts(store.owners) {
        assert ks[m] in ks;
      }
    }
    PrefixCard(ks, |ks|);
    forall i | 0 <= i < |r|
      ensures r[i].petsCount in AllCounts(store.owners) && |CountsAbove(store.owners, r[i].petsCount)| == i
    {
      assert ks[i] in Prefix(ks, |ks|);
      var j := RankOfCount(store.owners, ks[i]);
      assert ks[j] == ks[i];
    }
  }

  /** A count of some owner is given a slot exactly when fewer than three
      distinct counts of owners, of any age, exceed it; the age plays no
      part in which groups are listed. */
  lemma TopOwnersSlots(store: Store, ownerAge: int, n: nat)
    ensures var r := TopOwners(store, ownerAge);
      (exists i :: 0 <= i < |r| && r[i].petsCount == n)
      <==> n in AllCounts(store.owners) && |CountsAbove(store.owners, n)| < TOP
  {
    var r := TopOwners(store, ownerAge);
    var ks := SortedPetsCounts(store.owners);
    TopOwnersUnfold(store, ownerAge);
    if i :| 0 <= i < |r| && r[i].petsCount == n {
      assert ks[i] in ks;
      var o :| o in store.owners && PetsCount(o) == n;
      assert n in AllCounts(store.owners);
      var j := RankOfCount(store.owners, n);
      assert ks[i] == ks[j];
      assert i == j;
    } else if n in AllCounts(store.owners) {
      var j := RankOfCount(store.owners, n);
      assert j >= |r|;
    }
  }

  /** No stored owner with `n` pets has the age `age`. */
  ghost predicate NoOwnerAtAge(store: Store, n: nat, age: int)
  {
    forall o :: o in store.owners && PetsCount(o) == n ==> o.age != age
  }

  /** Every group keeps its slot whatever the requested age. */
  lemma SlotsIgnoreAge(store: Store, a: int, b: int)
    ensures var ra, rb := TopOwners(store, a), TopOwners(store, b);
      && |ra| == |rb|
      && forall i :: 0 <= i < |ra| ==> ra[i].petsCount == rb[i].petsCount
  {
    TopOwnersUnfold(store, a);
    TopOwnersUnfold(store, b);
  }

  /** A group none of whose owners has the requested age is still emitted,
      with no owners. */
  lemma GroupWithoutOwnerAtAgeIsEmpty(store: Store, ownerAge: int, i: nat)
    requires DistinctBy(store.owners, OwnerId)
    requires i < |TopOwners(store, ownerAge)|
    requires NoOwnerAtAge(store, TopOwners(store, ownerAge)[i].petsCount, ownerAge)
    ensures TopOwners(store, ownerAge)[i].owners == []
  {
    var r := TopOwners(store, ownerAge);
    if r[i].owners != [] {
      ListedOwnerIsStored(store, ownerAge, i, r[i].owners[0]);
    }
  }

  // ---------------------------------------------------------------------
  // Who is listed

  /** Entry `i` lists exactly the stored owners of the requested age whose
      number of stored cat ids plus dog ids is the entry's count, each with
      its pets resolved. */
  lemma TopOwnersShape(store: Store, ownerAge: int)
    requires DistinctBy(store.owners, OwnerId)
    ensures var r := TopOwners(store, ownerAge);
      forall i, v :: 0 <= i < |r| ==>
        (v in r[i].owners <==>
         exists o :: o in store.owners && o.age == ownerAge && PetsCount(o) == r[i].petsCount && v == View(store, o))
  {
    var r, gs := TopOwners(store, ownerAge), Aggregate(store);
    AggregateGroups(store);
    forall i | 0 <= i < |r| ensures r[i] == Entry(gs[i], ownerAge) {
    }
  }

  /** Every listed owner is a stored owner of the requested age, shown with
      its pets resolved, under the entry whose count is its own number of
      stored cat ids plus dog ids. */
  lemma ListedOwnerIsStored(store: Store, ownerAge: int, i: nat, v: OwnerView)
    requires DistinctBy(store.owners, OwnerId)
    requires i < |TopOwners(store, ownerAge)| && v in TopOwners(store, ownerAge)[i].owners
    ensures exists o :: && o in store.owners && v == View(store, o) && o.age == ownerAge
                        && PetsCount(o) == TopOwners(store, ownerAge)[i].petsCount
  {
    TopOwnersShape(store, ownerAge);
  }

  /** Within an entry no owner id is listed twice. */
  lemma EntryIdsDistinct(store: Store, ownerAge: int)
    requires DistinctBy(store.owners, OwnerId)
    ensures var r := TopOwners(store, ownerAge);
      forall i :: 0 <= i < |r| ==> DistinctBy(r[i].owners, ViewId)
  {
    var r := TopOwners(store, ownerAge);
    forall i | 0 <= i < |r|
      ensures DistinctBy(r[i].owners, ViewId)
    {
      assert r[i] == Entry(Aggregate(store)[i], ownerAge);
    }
  }

  /** An owner listed under entries `i` and `j` makes them the same entry. */
  lemma SameIdSameEntry(store: Store, ownerAge: int, i: nat, j: nat, v: OwnerView, w: OwnerView)
    requires DistinctBy(store.owners, OwnerId)
    requires i < |TopOwners(store, ownerAge)| && v in TopOwners(store, ownerAge)[i].owners
    requires j < |TopOwners(store, ownerAge)| && w in TopOwners(store, ownerAge)[j].owners
    requires v.id == w.id
    ensures i == j
  {
    TopOwnersShape(store, ownerAge);
    OneEntryPerOwner(store, ownerAge, TopOwners(store, ownerAge), i, j, v, w);
  }

  lemma OneEntryPerOwner(store: Store, ownerAge: int, r: seq<TopPetOwnersItem>, i: nat, j: nat, v: OwnerView, w: OwnerView)
    requires DistinctBy(store.owners, OwnerId)
    requires forall i, j :: 0 <= i < j < |r| ==> r[i].petsCount > r[j].petsCount
    requires forall i, v :: 0 <= i < |r| ==>
      (v in r[i].owners <==>
       exists o :: o in store.owners && o.age == ownerAge && PetsCount(o) == r[i].petsCount && v == View(store, o))
    requires i < |r| && v in r[i].owners && j < |r| && w in r[j].owners && v.id == w.id
    ensures i == j
  {
    var o :| o in store.owners && o.age == ownerAge && PetsCount(o) == r[i].petsCount && v == View(store, o);
    var p :| p in store.owners && p.age == ownerAge && PetsCount(p) == r[j].petsCount && w == View(store, p);
    var k :| 0 <= k < |store.owners| && store.owners[k] == p;
    DistinctByUnique(store.owners, OwnerId, k);
    assert OwnerId(o) == OwnerId(p);
  }

  /** No owner is listed under two entries. */
  lemma NoOwnerListedTwice(store: Store, ownerAge: int)
    requires DistinctBy(store.owners, OwnerId)
    ensures var r := TopOwners(store, ownerAge);
      forall i, j, v, w :: 0 <= i < |r| && 0 <= j < |r| && v in r[i].owners && w in r[j].owners && v.id == w.id ==> i == j
  {
    var r := TopOwners(store, ownerAge);
    forall i, j, v, w | 0 <= i < |r| && 0 <= j < |r| && v in r[i].owners && w in r[j].owners && v.id == w.id
      ensures i == j
    {
      SameIdSameEntry(store, ownerAge, i, j, v, w);
    }
  }

  /** Every stored owner of the requested age whose count holds a slot is
      listed, with its pets resolved, under that count. */
  lemma OwnerAtAgeIsListed(store: Store, ownerAge: int, o: Owner)
    requires o in store.owners && o.age == ownerAge
    requires |CountsAbove(store.owners, PetsCount(o))| < TOP
    ensures var r := TopOwners(store, ownerAge);
      exists i :: 0 <= i < |r| && r[i].petsCount == PetsCount(o) && View(store, o) in r[i].owners
  {
    var r := TopOwners(store, ownerAge);
    assert PetsCount(o) in AllCounts(store.owners);
    TopOwnersSlots(store, ownerAge, PetsCount(o));
    var i :| 0 <= i < |r| && r[i].petsCount == PetsCount(o);
    var g := GroupAndSort(store.owners)[i];
    assert r[i] == Entry(Aggregate(store)[i], ownerAge);
    assert o.id in g.ids;
    assert View(store, o) in LookupOwners(store, g.ids);
  }
}
