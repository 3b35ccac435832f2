/** The ranking the end-to-end test of `GET /pets/top-owners/:age` expects:
    the three owners OF THE REQUESTED AGE with the most pets, grouped by
    their total pet count, largest first. The service as written cuts
    three count groups of ALL owners instead and filters by age only
    inside them; the fixture lemmas show the two apart on the test's own
    data. */
module OwnerRankingIntended {
  import opened Seqs
  import opened Schemas
  import opened OwnerRanking

  predicate SortedByPetsCount(s: seq<Owner>)
  {
    forall i, j :: 0 <= i < j < |s| ==> PetsCount(s[i]) >= PetsCount(s[j])
  }

  /** Inserts `o` before the first owner with no more pets than it. */
  function InsertByPetsCount(o: Owner, s: seq<Owner>): (r: seq<Owner>)
    requires SortedByPetsCount(s)
    ensures forall x :: x in r <==> x == o || x in s
    ensures SortedByPetsCount(r)
    ensures multiset(r) == multiset(s) + multiset{o}
  {
    if s == [] || PetsCount(s[0]) <= PetsCount(o) then [o] + s
    else
      assert s == [s[0]] + s[1..];
      SortedTail(s);
      var rest := InsertByPetsCount(o, s[1..]);
      HeadAboveRest(s[0], rest);
      [s[0]] + rest
  }

  /** The tail of a sorted sequence is sorted and lies below its head. */
  lemma SortedTail(s: seq<Owner>)
    requires SortedByPetsCount(s) && s != []
    ensures SortedByPetsCount(s[1..])
    ensures forall x :: x in s[1..] ==> PetsCount(x) <= PetsCount(s[0])
  {
    var t := s[1..];
    forall i, j | 0 <= i < j < |t| ensures PetsCount(t[i]) >= PetsCount(t[j]) {
      assert t[i] == s[i + 1] && t[j] == s[j + 1];
    }
    forall x | x in t ensures PetsCount(x) <= PetsCount(s[0]) {
      var i :| 0 <= i < |t| && t[i] == x;
      assert s[i + 1] == x;
    }
  }

  lemma HeadAboveRest(h: Owner, rest: seq<Owner>)
    requires SortedByPetsCount(rest)
    requires forall x :: x in rest ==> PetsCount(x) <= PetsCount(h)
    ensures SortedByPetsCount([h] + rest)
  {
    var r := [h] + rest;
    forall i, j | 0 <= i < j < |r| ensures PetsCount(r[i]) >= PetsCount(r[j]) {
      assert r[j] == rest[j - 1] && rest[j - 1] in rest;
      if i > 0 {
        assert r[i] == rest[i - 1];
      }
    }
  }

  /** The owners, most pets first. */
  function SortByPetsCount(s: seq<Owner>): (r: seq<Owner>)
    ensures SortedByPetsCount(r)
    ensures multiset(r) == multiset(s)
  {
    if s == [] then []
    else
      assert s == [s[0]] + s[1..];
      InsertByPetsCount(s[0], SortByPetsCount(s[1..]))
  }

  /** The owners of the requested age, most pets first; with unique owner
      ids, none twice. */
  function Ranked(store: Store, ownerAge: int): (ranked: seq<Owner>)
    ensures SortedByPetsCount(ranked)
    ensures forall o :: o in ranked <==> o in store.owners && o.age == ownerAge
    ensures DistinctBy(store.owners, OwnerId) ==> NoDuplicates(ranked)
  {
    var aged := (o: Owner) => o.age == ownerAge;
    var atAge := Filter(store.owners, aged);
    var ranked := SortByPetsCount(atAge);
    SortKeepsMembers(atAge);
    DistinctByNoDuplicates(store.owners, OwnerId);
    SortKeepsNoDuplicates(store.owners, aged);
    ranked
  }

  lemma SortKeepsMembers(s: seq<Owner>)
    ensures forall o :: o in SortByPetsCount(s) <==> o in s
  {
    var r := SortByPetsCount(s);
    assert forall o :: o in r <==> o in multiset(r);
  }

  lemma SortKeepsNoDuplicates(os: seq<Owner>, keep: Owner -> bool)
    ensures NoDuplicates(os) ==> NoDuplicates(SortByPetsCount(Filter(os, keep)))
  {
    if NoDuplicates(os) {
      NoDuplicatesOnce(os);
      FilterMultiset(os, keep);
      OnceNoDuplicates(SortByPetsCount(Filter(os, keep)));
    }
  }

  /** The ranked owners cut after three. Fewer than three are chosen only
      when there are no more owners of that age. */
  function Chosen(store: Store, ownerAge: int): (c: seq<Owner>)
    ensures |c| <= TOP
    ensures forall o :: o in c ==> o in store.owners && o.age == ownerAge
    ensures |c| < TOP ==> forall o :: o in store.owners && o.age == ownerAge ==> o in c
  {
    var ranked := Ranked(store, ownerAge);
    if |ranked| <= TOP then ranked else ranked[..TOP]
  }

  /** With unique owner ids, no owner is chosen twice. */
  lemma ChosenNoDuplicates(store: Store, ownerAge: int)
    requires DistinctBy(store.owners, OwnerId)
    ensures NoDuplicates(Chosen(store, ownerAge))
  {
    var ranked, c := Ranked(store, ownerAge), Chosen(store, ownerAge);
    forall i, j | 0 <= i < j < |c| ensures c[i] != c[j] {
      assert c[i] == ranked[i] && c[j] == ranked[j];
    }
  }

  /** With unique owner ids, the chosen owners have distinct ids. */
  lemma ChosenIdsDistinct(store: Store, ownerAge: int)
    requires DistinctBy(store.owners, OwnerId)
    ensures DistinctBy(Chosen(store, ownerAge), OwnerId)
  {
    var c := Chosen(store, ownerAge);
    ChosenNoDuplicates(store, ownerAge);
    forall i, j | 0 <= i < j < |c| ensures OwnerId(c[i]) != OwnerId(c[j]) {
      assert c[j] in c;
      var k :| 0 <= k < |store.owners| && store.owners[k] == c[j];
      DistinctByUnique(store.owners, OwnerId, k);
    }
  }

  /** The owners of the requested age with at least `n` pets. */
  ghost function OwnersAtLeast(store: Store, ownerAge: int, n: nat): set<Owner>
  {
    set o | o in store.owners && o.age == ownerAge && PetsCount(o) >= n
  }

  /** The owners of the requested age with more than `n` pets. */
  ghost function OwnersAbove(store: Store, ownerAge: int, n: nat): set<Owner>
  {
    set o | o in store.owners && o.age == ownerAge && PetsCount(o) > n
  }

  /** An owner is chosen when at most three owners of its age, itself
      included, have at least its number of pets. */
  lemma ChosenIncludes(store: Store, ownerAge: int, p: Owner)
    requires DistinctBy(store.owners, OwnerId)
    requires p in store.owners && p.age == ownerAge
    requires |OwnersAtLeast(store, ownerAge, PetsCount(p))| <= TOP
    ensures p in Chosen(store, ownerAge)
  {
    var ranked, S := Ranked(store, ownerAge), OwnersAtLeast(store, ownerAge, PetsCount(p));
    forall o | o in ranked && PetsCount(o) >= PetsCount(p) ensures o in S {
    }
    var k := RankBelow(ranked, p, S);
    RankedHeadIsChosen(store, ownerAge, k);
  }

  /** In a sorted sequence without duplicates, an element stands at a
      position below the number of elements of `S`, when `S` holds every
      element with at least its count. */
  lemma RankBelow(ranked: seq<Owner>, p: Owner, S: set<Owner>) returns (k: nat)
    requires SortedByPetsCount(ranked) && NoDuplicates(ranked) && p in ranked
    requires forall o :: o in ranked && PetsCount(o) >= PetsCount(p) ==> o in S
    ensures k < |ranked| && ranked[k] == p && k < |S|
  {
    k :| 0 <= k < |ranked| && ranked[k] == p;
    forall j | 0 <= j < k + 1 ensures ranked[j] in S {
      assert ranked[j] in ranked;
    }
    DistinctPrefixBound(ranked, k + 1, S);
  }

  /** The position in a sorted sequence where the owners with more than
      `n` pets end. */
  lemma {:induction false} SplitAbove(s: seq<Owner>, n: nat) returns (m: nat)
    requires SortedByPetsCount(s)
    ensures m <= |s|
    ensures forall j :: 0 <= j < m ==> PetsCount(s[j]) > n
    ensures m < |s| ==> PetsCount(s[m]) <= n
  {
    if s == [] || PetsCount(s[0]) <= n {
      m := 0;
    } else {
      SortedTail(s);
      var m' := SplitAbove(s[1..], n);
      m := m' + 1;
      forall j | 0 <= j < m ensures PetsCount(s[j]) > n {
        if j > 0 {
          assert s[j] == s[1..][j - 1];
        }
      }
      if m < |s| {
        assert s[m] == s[1..][m'];
      }
    }
  }

  /** An owner of the requested age with more pets than a chosen one is
      chosen too. */
  lemma ChosenHoldsTheTop(store: Store, ownerAge: int, p: Owner, q: Owner)
    requires p in store.owners && p.age == ownerAge
    requires q in Chosen(store, ownerAge)
    requires PetsCount(p) > PetsCount(q)
    ensures p in Chosen(store, ownerAge)
  {
    var ranked := Ranked(store, ownerAge);
    var chosen := Chosen(store, ownerAge);
    var m :| 0 <= m < |chosen| && chosen[m] == q;
    assert ranked[m] == q;
    var k :| 0 <= k < |ranked| && ranked[k] == p;
    // sortedness puts the owner with more pets ahead of q
    assert PetsCount(ranked[k]) > PetsCount(ranked[m]);
    assert k < m;
    assert chosen[k] == p;
  }

  /** The chosen owners with `n` pets, each with its pets resolved. */
  function WithPetsCount(store: Store, chosen: seq<Owner>, n: nat): (vs: seq<OwnerView>)
    ensures forall v :: v in vs <==> exists o :: o in chosen && PetsCount(o) == n && v == View(store, o)
    ensures DistinctBy(chosen, OwnerId) ==> DistinctBy(vs, ViewId)
  {
    var hasCount := (o: Owner) => PetsCount(o) == n;
    var os := Filter(chosen, hasCount);
    FilterDistinctBy(chosen, hasCount, OwnerId);
    ViewsMembership(store, os);
    Views(store, os)
  }

  /** Top three owners at the requested age, grouped by total pet count,
      largest count first. */
  function TopThreeOwnersIntended(store: Store, ownerAge: int): (r: seq<TopPetOwnersItem>)
    ensures |r| <= TOP
    ensures forall i, j :: 0 <= i < j < |r| ==> r[i].petsCount > r[j].petsCount
  {
    var chosen := Chosen(store, ownerAge);
    var ks := SortedPetsCounts(chosen);
    seq(|ks|, i requires 0 <= i < |ks| => TopPetOwnersItem(ks[i], WithPetsCount(store, chosen, ks[i])))
  }

  /** Every entry lists at least one owner, and every listed owner is a
      stored owner of the requested age with the entry's count of pets. */
  lemma IntendedEntries(store: Store, ownerAge: int)
    ensures var r := TopThreeOwnersIntended(store, ownerAge);
      forall i :: 0 <= i < |r| ==> r[i].owners != []
    ensures var r := TopThreeOwnersIntended(store, ownerAge);
      forall i, v :: 0 <= i < |r| && v in r[i].owners ==>
        exists o :: o in store.owners && o.age == ownerAge && PetsCount(o) == r[i].petsCount && v == View(store, o)
  {
    var r := TopThreeOwnersIntended(store, ownerAge);
    var chosen := Chosen(store, ownerAge);
    var ks := SortedPetsCounts(chosen);
    forall i | 0 <= i < |r| ensures r[i].owners != [] {
      assert r[i].owners == WithPetsCount(store, chosen, ks[i]);
      assert ks[i] in ks;
      var o :| o in chosen && PetsCount(o) == ks[i];
      assert View(store, o) in r[i].owners;
    }
    forall i, v | 0 <= i < |r| && v in r[i].owners
      ensures exists o :: o in store.owners && o.age == ownerAge && PetsCount(o) == r[i].petsCount && v == View(store, o)
    {
      assert r[i].owners == WithPetsCount(store, chosen, ks[i]);
      var o :| o in chosen && PetsCount(o) == ks[i] && v == View(store, o);
    }
  }

  /** Every listed owner is a chosen one, with the entry's count: at most
      three owners are listed in all. */
  lemma ListedIsChosen(store: Store, ownerAge: int, i: nat, v: OwnerView)
    requires i < |TopThreeOwnersIntended(store, ownerAge)|
    requires v in TopThreeOwnersIntended(store, ownerAge)[i].owners
    ensures exists o :: && o in Chosen(store, ownerAge) && v == View(store, o)
                        && PetsCount(o) == TopThreeOwnersIntended(store, ownerAge)[i].petsCount
  {
    var chosen := Chosen(store, ownerAge);
    assert TopThreeOwnersIntended(store, ownerAge)[i].owners == WithPetsCount(store, chosen, SortedPetsCounts(chosen)[i]);
  }

  /** With unique owner ids, no owner id is listed twice within an entry. */
  lemma IntendedEntryIdsDistinct(store: Store, ownerAge: int, i: nat)
    requires DistinctBy(store.owners, OwnerId)
    requires i < |TopThreeOwnersIntended(store, ownerAge)|
    ensures DistinctBy(TopThreeOwnersIntended(store, ownerAge)[i].owners, ViewId)
  {
    var chosen := Chosen(store, ownerAge);
    ChosenIdsDistinct(store, ownerAge);
    assert TopThreeOwnersIntended(store, ownerAge)[i].owners == WithPetsCount(store, chosen, SortedPetsCounts(chosen)[i]);
  }

  /** With unique owner ids, an owner id listed under entries `i` and `j`
      makes them the same entry. */
  lemma IntendedSameIdSameEntry(store: Store, ownerAge: int, i: nat, j: nat, v: OwnerView, w: OwnerView)
    requires DistinctBy(store.owners, OwnerId)
    requires i < |TopThreeOwnersIntended(store, ownerAge)| && v in TopThreeOwnersIntended(store, ownerAge)[i].owners
    requires j < |TopThreeOwnersIntended(store, ownerAge)| && w in TopThreeOwnersIntended(store, ownerAge)[j].owners
    requires v.id == w.id
    ensures i == j
  {
    var o := ListedOwner(store, ownerAge, i, v);
    var p := ListedOwner(store, ownerAge, j, w);
    SameOwnerSameEntry(store.owners, TopThreeOwnersIntended(store, ownerAge), i, j, o, p);
  }

  /** The stored owner behind a listed view. */
  lemma ListedOwner(store: Store, ownerAge: int, i: nat, v: OwnerView) returns (o: Owner)
    requires i < |TopThreeOwnersIntended(store, ownerAge)|
    requires v in TopThreeOwnersIntended(store, ownerAge)[i].owners
    ensures o in store.owners && o.id == v.id && PetsCount(o) == TopThreeOwnersIntended(store, ownerAge)[i].petsCount
  {
    ListedIsChosen(store, ownerAge, i, v);
    o :| o in Chosen(store, ownerAge) && v == View(store, o) && PetsCount(o) == TopThreeOwnersIntended(store, ownerAge)[i].petsCount;
  }

  lemma SameOwnerSameEntry(owners: seq<Owner>, t: seq<TopPetOwnersItem>, i: nat, j: nat, o: Owner, p: Owner)
    requires DistinctBy(owners, OwnerId)
    requires forall a, b :: 0 <= a < b < |t| ==> t[a].petsCount > t[b].petsCount
    requires i < |t| && j < |t|
    requires o in owners && p in owners && o.id == p.id
    requires PetsCount(o) == t[i].petsCount && PetsCount(p) == t[j].petsCount
    ensures i == j
  {
    var k :| 0 <= k < |owners| && owners[k] == p;
    DistinctByUnique(owners, OwnerId, k);
    assert OwnerId(o) == OwnerId(p);
  }

  /** Every chosen owner is listed, with its pets resolved, under its own
      count. */
  lemma ChosenCountListed(store: Store, ownerAge: int, q: Owner)
    requires q in Chosen(store, ownerAge)
    ensures var r := TopThreeOwnersIntended(store, ownerAge);
      exists i :: 0 <= i < |r| && r[i].petsCount == PetsCount(q) && View(store, q) in r[i].owners
  {
    var r := TopThreeOwnersIntended(store, ownerAge);
    var chosen := Chosen(store, ownerAge);
    var ks := SortedPetsCounts(chosen);
    assert PetsCount(q) in ks;
    var i :| 0 <= i < |ks| && ks[i] == PetsCount(q);
    assert r[i].owners == WithPetsCount(store, chosen, ks[i]);
    assert View(store, q) in r[i].owners;
  }

  /** A count of an owner of the requested age gets an entry when fewer
      than three owners of that age have more pets. */
  lemma IntendedListsCount(store: Store, ownerAge: int, p: Owner)
    requires DistinctBy(store.owners, OwnerId)
    requires p in store.owners && p.age == ownerAge
    requires |OwnersAbove(store, ownerAge, PetsCount(p))| < TOP
    ensures var r := TopThreeOwnersIntended(store, ownerAge);
      exists i :: 0 <= i < |r| && r[i].petsCount == PetsCount(p)
  {
    var ranked, S := Ranked(store, ownerAge), OwnersAbove(store, ownerAge, PetsCount(p));
    forall o | o in ranked && PetsCount(o) > PetsCount(p) ensures o in S {
    }
    var m := FirstWithCount(ranked, p, S);
    RankedHeadIsChosen(store, ownerAge, m);
    ChosenCountListed(store, ownerAge, ranked[m]);
  }

  /** The first three ranked owners are the chosen ones. */
  lemma RankedHeadIsChosen(store: Store, ownerAge: int, m: nat)
    requires m < TOP && m < |Ranked(store, ownerAge)|
    ensures Ranked(store, ownerAge)[m] in Chosen(store, ownerAge)
  {
    assert Chosen(store, ownerAge)[m] == Ranked(store, ownerAge)[m];
  }

  /** In a sorted sequence without duplicates, the first element with the
      count of `p` stands at a position below the number of elements of
      `S`, when `S` holds every element with more. */
  lemma FirstWithCount(ranked: seq<Owner>, p: Owner, S: set<Owner>) returns (m: nat)
    requires SortedByPetsCount(ranked) && NoDuplicates(ranked) && p in ranked
    requires forall o :: o in ranked && PetsCount(o) > PetsCount(p) ==> o in S
    ensures m < |ranked| && PetsCount(ranked[m]) == PetsCount(p) && m <= |S|
  {
    var k :| 0 <= k < |ranked| && ranked[k] == p;
    m := SplitAbove(ranked, PetsCount(p));
    assert m <= k by {
      assert PetsCount(ranked[k]) <= PetsCount(p);
    }
    assert PetsCount(ranked[m]) >= PetsCount(ranked[k]);
    forall j | 0 <= j < m ensures ranked[j] in S {
      assert ranked[j] in ranked;
    }
    DistinctPrefixBound(ranked, m, S);
  }

  /** Every owner of the requested age with more pets than a listed count
      is listed itself: the listed owners are the top ones at that age. */
  lemma IntendedListsTheTop(store: Store, ownerAge: int, p: Owner, i: nat)
    requires p in store.owners && p.age == ownerAge
    requires i < |TopThreeOwnersIntended(store, ownerAge)|
    requires PetsCount(p) > TopThreeOwnersIntended(store, ownerAge)[i].petsCount
    ensures var r := TopThreeOwnersIntended(store, ownerAge);
      exists j :: 0 <= j < |r| && View(store, p) in r[j].owners
  {
    var r := TopThreeOwnersIntended(store, ownerAge);
    var chosen := Chosen(store, ownerAge);
    var ks := SortedPetsCounts(chosen);
    assert r[i].petsCount == ks[i] && ks[i] in ks;
    var q :| q in chosen && PetsCount(q) == ks[i];
    ChosenHoldsTheTop(store, ownerAge, p, q);
    ChosenCountListed(store, ownerAge, p);
  }

  /** The owners behind entry `i`: a chosen owner has its count. */
  lemma ListedCountIsChosen(store: Store, ownerAge: int, i: nat) returns (q: Owner)
    requires i < |TopThreeOwnersIntended(store, ownerAge)|
    ensures q in Chosen(store, ownerAge)
    ensures PetsCount(q) == TopThreeOwnersIntended(store, ownerAge)[i].petsCount
  {
    var chosen := Chosen(store, ownerAge);
    var ks := SortedPetsCounts(chosen);
    assert ks[i] in ks;
    q :| q in chosen && PetsCount(q) == ks[i];
  }

  /** Three distinct owners of the requested age, each with more pets than
      some count, leave no room for that count in the ranking. */
  lemma IntendedCutsAtThree(store: Store, ownerAge: int, a: Owner, b: Owner, c: Owner)
    requires a in store.owners && b in store.owners && c in store.owners
    requires a.age == ownerAge && b.age == ownerAge && c.age == ownerAge
    requires a != b && b != c && a != c
    ensures var r := TopThreeOwnersIntended(store, ownerAge);
      forall i :: 0 <= i < |r| ==>
        r[i].petsCount >= PetsCount(a) || r[i].petsCount >= PetsCount(b) || r[i].petsCount >= PetsCount(c)
  {
    var r := TopThreeOwnersIntended(store, ownerAge);
    forall i | 0 <= i < |r|
      ensures r[i].petsCount >= PetsCount(a) || r[i].petsCount >= PetsCount(b) || r[i].petsCount >= PetsCount(c)
    {
      var q := ListedCountIsChosen(store, ownerAge, i);
      if PetsCount(q) < PetsCount(a) && PetsCount(q) < PetsCount(b) && PetsCount(q) < PetsCount(c) {
        ChosenHoldsTheTop(store, ownerAge, a, q);
        ChosenHoldsTheTop(store, ownerAge, b, q);
        ChosenHoldsTheTop(store, ownerAge, c, q);
        FourMembers(Chosen(store, ownerAge), a, b, c, q);
        assert false;
      }
    }
  }
}
