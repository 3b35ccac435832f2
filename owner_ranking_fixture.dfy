/** The fixture of the end-to-end test of `GET /pets/top-owners/:age`
    (three cats, three dogs, six owners) and what each ranking returns on
    it at age 50. */
module OwnerRankingFixture {
  import opened Seqs
  import opened Schemas
  import opened OwnerRanking
  import opened OwnerRankingIntended

  const FIXTURE_CATS: seq<CatRecord> := [
    Cat("c0", "cat0", 1, "breed", 4, true),
    Cat("c1", "cat1", 2, "breed", 5, false),
    Cat("c2", "cat2", 3, "breed", 6, true)
  ]

  const FIXTURE_DOGS: seq<DogRecord> := [
    Dog("d0", "dog0", 1, "breed", 7, true),
    Dog("d1", "dog1", 2, "breed", 8, false),
    Dog("d2", "dog2", 3, "breed", 9, true)
  ]

  const OWNER_0: Owner := Owner("o0", "owner0", 49, [], ["d0", "d1", "d2"])
  const OWNER_1: Owner := Owner("o1", "owner1", 50, ["c0", "c1", "c2"], [])
  const OWNER_2: Owner := Owner("o2", "owner2", 50, ["c2"], ["d1"])
  const OWNER_3: Owner := Owner("o3", "owner3", 50, ["c0"], ["d0", "d1"])
  const OWNER_4: Owner := Owner("o4", "owner4", 50, ["c2"], ["d2"])
  const OWNER_5: Owner := Owner("o5", "owner5", 50, ["c1"], ["d0", "d1", "d2"])

  /** Owner 0 is 49 with three pets; owners 1 to 5 are 50 with 3, 2, 3, 2
      and 4 pets. */
  const FIXTURE_OWNERS: seq<Owner> := [OWNER_0, OWNER_1, OWNER_2, OWNER_3, OWNER_4, OWNER_5]

  const FIXTURE: Store := Store(FIXTURE_CATS, FIXTURE_DOGS, FIXTURE_OWNERS)

  /** The ages and counts of the fixture: owner 0 is 49 with three pets,
      owners 1 to 5 are 50 with 3, 2, 3, 2 and 4 pets. */
  predicate FixtureProfile(os: seq<Owner>)
  {
    && |os| == 6
    && os[0].age == 49 && PetsCount(os[0]) == 3
    && os[1].age == 50 && PetsCount(os[1]) == 3
    && os[2].age == 50 && PetsCount(os[2]) == 2
    && os[3].age == 50 && PetsCount(os[3]) == 3
    && os[4].age == 50 && PetsCount(os[4]) == 2
    && os[5].age == 50 && PetsCount(os[5]) == 4
  }

  /** The shape of the fixture: its profile, with all ids distinct. */
  predicate FixtureShape(os: seq<Owner>)
  {
    FixtureProfile(os) && DistinctBy(os, OwnerId)
  }

  /** The distinct pet counts of such owners are 4, 3 and 2. */
  lemma FixtureCounts(os: seq<Owner>)
    requires FixtureProfile(os)
    ensures SortedPetsCounts(os) == [4, 3, 2]
  {
    assert os[5..][1..] == [];
    assert SortedPetsCounts(os[5..]) == [4];
    assert os[4..][1..] == os[5..];
    assert [4][1..] == [] && InsertDesc(2, [4]) == [4, 2];
    assert SortedPetsCounts(os[4..]) == [4, 2];
    assert os[3..][1..] == os[4..];
    assert [4, 2][1..] == [2] && InsertDesc(3, [4, 2]) == [4, 3, 2];
    assert SortedPetsCounts(os[3..]) == [4, 3, 2];
    assert os[2..][1..] == os[3..];
    assert [4, 3, 2][1..] == [3, 2] && [3, 2][1..] == [2] && InsertDesc(2, [4, 3, 2]) == [4, 3, 2];
    assert SortedPetsCounts(os[2..]) == [4, 3, 2];
    assert os[1..][1..] == os[2..];
    assert InsertDesc(3, [4, 3, 2]) == [4, 3, 2];
    assert SortedPetsCounts(os[1..]) == [4, 3, 2];
    assert os[0..] == os;
  }

  /** At age 50 the service as written returns three entries, counts 4, 3
      and 2, the last one listing owners 2 and 4. */
  lemma ShapeAsWritten(store: Store)
    requires FixtureProfile(store.owners)
    ensures var w := TopOwners(store, 50);
      && |w| == 3
      && w[0].petsCount == 4 && w[1].petsCount == 3 && w[2].petsCount == 2
      && View(store, store.owners[2]) in w[2].owners && View(store, store.owners[4]) in w[2].owners
  {
    FixtureCounts(store.owners);
    TopOwnersUnfold(store, 50);
    var ids := IdsWithPetsCount(store.owners, 2);
    assert store.owners[2] in store.owners && store.owners[2].id in ids;
    assert store.owners[4] in store.owners && store.owners[4].id in ids;
  }

  /** The owners aged 50 have between 2 and 4 pets. */
  lemma FixtureAgedCounts(store: Store, o: Owner)
    requires FixtureProfile(store.owners)
    requires o in store.owners && o.age == 50
    ensures 2 <= PetsCount(o) <= 4
    ensures PetsCount(o) >= 3 ==> o == store.owners[1] || o == store.owners[3] || o == store.owners[5]
  {
    var k :| 0 <= k < 6 && store.owners[k] == o;
  }

  /** Owners 1, 3 and 5 are the only owners aged 50 with at least 3 pets. */
  lemma FixtureTopThree(store: Store)
    requires FixtureProfile(store.owners)
    ensures |OwnersAtLeast(store, 50, 3)| <= TOP
    ensures |OwnersAtLeast(store, 50, 4)| <= TOP
  {
    var os := store.owners;
    forall o | o in OwnersAtLeast(store, 50, 3) ensures o in {os[1], os[3], os[5]} {
      FixtureAgedCounts(store, o);
    }
    SubsetCard(OwnersAtLeast(store, 50, 3), {os[1], os[3], os[5]});
    SubsetCard(OwnersAtLeast(store, 50, 4), OwnersAtLeast(store, 50, 3));
  }

  /** At age 50 the intended ranking has two entries: count 4 with owner 5,
      then count 3 with owners 1 and 3. */
  lemma ShapeIntended(store: Store)
    requires FixtureShape(store.owners)
    ensures var t, os := TopThreeOwnersIntended(store, 50), store.owners;
      && |t| == 2 && t[0].petsCount == 4 && t[1].petsCount == 3
      && View(store, os[5]) in t[0].owners
      && View(store, os[1]) in t[1].owners && View(store, os[3]) in t[1].owners
  {
    var a, b, c := IntendedFixtureFacts(store);
    var os := store.owners;
    IntendedShapeFromFacts(TopThreeOwnersIntended(store, 50), a, b, c, View(store, os[5]), View(store, os[1]), View(store, os[3]));
  }

  /** Every entry has 3 or 4 pets. */
  ghost predicate ThreeOrFourPets(t: seq<TopPetOwnersItem>)
  {
    forall i :: 0 <= i < |t| ==> 3 <= t[i].petsCount <= 4
  }

  /** What the intended ranking at age 50 is known to hold: counts of 3 or
      4, owner 5 under a 4, owners 1 and 3 under a 3. */
  lemma IntendedFixtureFacts(store: Store) returns (a: nat, b: nat, c: nat)
    requires FixtureShape(store.owners)
    ensures var t, os := TopThreeOwnersIntended(store, 50), store.owners;
      && ThreeOrFourPets(t)
      && a < |t| && t[a].petsCount == 4 && View(store, os[5]) in t[a].owners
      && b < |t| && t[b].petsCount == 3 && View(store, os[1]) in t[b].owners
      && c < |t| && t[c].petsCount == 3 && View(store, os[3]) in t[c].owners
  {
    a := FixtureOwnerListed(store, 5);
    b := FixtureOwnerListed(store, 1);
    c := FixtureOwnerListed(store, 3);
    IntendedFixtureCounts(store);
  }

  /** Strictly decreasing counts of 3 or 4, with a 4 at `a` and a 3 at `b`
      and `c`: two entries, 4 then 3, listing what `a`, `b` and `c` list. */
  lemma IntendedShapeFromFacts(t: seq<TopPetOwnersItem>, a: nat, b: nat, c: nat, va: OwnerView, vb: OwnerView, vc: OwnerView)
    requires forall i, j :: 0 <= i < j < |t| ==> t[i].petsCount > t[j].petsCount
    requires ThreeOrFourPets(t)
    requires a < |t| && t[a].petsCount == 4 && va in t[a].owners
    requires b < |t| && t[b].petsCount == 3 && vb in t[b].owners
    requires c < |t| && t[c].petsCount == 3 && vc in t[c].owners
    ensures |t| == 2 && t[0].petsCount == 4 && t[1].petsCount == 3
    ensures va in t[0].owners && vb in t[1].owners && vc in t[1].owners
  {
    CountGap(t, |t| - 1);
  }

  /** Every entry of the intended ranking at age 50 has 3 or 4 pets. */
  lemma IntendedFixtureCounts(store: Store)
    requires FixtureShape(store.owners)
    ensures ThreeOrFourPets(TopThreeOwnersIntended(store, 50))
  {
    var t, os := TopThreeOwnersIntended(store, 50), store.owners;
    assert OwnerId(os[1]) != OwnerId(os[3]);
    IntendedCutsAtThree(store, 50, os[5], os[1], os[3]);
    forall i | 0 <= i < |t| ensures t[i].petsCount <= 4 {
      IntendedFixtureCountAtMostFour(store, i);
    }
  }

  lemma IntendedFixtureCountAtMostFour(store: Store, i: nat)
    requires FixtureProfile(store.owners)
    requires i < |TopThreeOwnersIntended(store, 50)|
    ensures TopThreeOwnersIntended(store, 50)[i].petsCount <= 4
  {
    var q := ListedCountIsChosen(store, 50, i);
    FixtureAgedCounts(store, q);
  }

  /** Owners 1, 3 and 5 are listed under their own counts. */
  lemma FixtureOwnerListed(store: Store, k: nat) returns (i: nat)
    requires FixtureShape(store.owners) && (k == 1 || k == 3 || k == 5)
    ensures var t := TopThreeOwnersIntended(store, 50);
      i < |t| && t[i].petsCount == PetsCount(store.owners[k]) && View(store, store.owners[k]) in t[i].owners
  {
    var t, o := TopThreeOwnersIntended(store, 50), store.owners[k];
    FixtureTopThree(store);
    ChosenIncludes(store, 50, o);
    ChosenCountListed(store, 50, o);
    i :| 0 <= i < |t| && t[i].petsCount == PetsCount(o) && View(store, o) in t[i].owners;
  }

  /** Strictly decreasing counts fall by at least one per position. */
  lemma {:induction false} CountGap(t: seq<TopPetOwnersItem>, i: nat)
    requires forall i, j :: 0 <= i < j < |t| ==> t[i].petsCount > t[j].petsCount
    requires i < |t|
    ensures t[i].petsCount + i <= t[0].petsCount
  {
    if i > 0 {
      CountGap(t, i - 1);
    }
  }

  /** On the test's fixture the service as written returns a third entry,
      with count 2 and owners 2 and 4, which the test does not expect; the
      intended ranking is the two entries the test expects. */
  lemma FixtureDivergence()
    ensures var w := TopOwners(FIXTURE, 50);
      && |w| == 3 && w[2].petsCount == 2
      && View(FIXTURE, OWNER_2) in w[2].owners && View(FIXTURE, OWNER_4) in w[2].owners
    ensures var t := TopThreeOwnersIntended(FIXTURE, 50);
      && |t| == 2 && t[0].petsCount == 4 && t[1].petsCount == 3
      && View(FIXTURE, OWNER_5) in t[0].owners
      && View(FIXTURE, OWNER_1) in t[1].owners && View(FIXTURE, OWNER_3) in t[1].owners
  {
    assert FixtureShape(FIXTURE.owners);
    ShapeAsWritten(FIXTURE);
    ShapeIntended(FIXTURE);
  }
}
