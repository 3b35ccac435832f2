/** The listing and lookup operations of the pets service over a store
    value: listing, lookups by id, collection weights and happy dogs. */
module PetsService {
  import opened Seqs
  import opened Schemas
  import opened WeightHelper

  /** The optional `petType` argument of `findAll`. */
  datatype PetType = CatType | DogType

  /** The exception a lookup throws: a message and an HTTP status. */
  datatype HttpException = HttpException(message: string, status: nat)

  datatype Result<T> = Ok(value: T) | Err(error: HttpException)

  /** `HttpStatus.INTERNAL_SERVER_ERROR`: the status a failed lookup carries. */
  const INTERNAL_SERVER_ERROR: nat := 500

  const CAT_NOT_FOUND: string := "Cat with given id can not be found"
  const DOG_NOT_FOUND: string := "Dog with given id can not be found"

  predicate IsCat(p: Pet) { p.Cat? }

  predicate IsDog(p: Pet) { p.Dog? }

  /** `findAll`: one collection when a type is given, otherwise the cats
      followed by the dogs. */
  function FindAll(store: Store, petType: Option<PetType>): (r: seq<Pet>)
    ensures petType == Some(CatType) ==> r == store.cats
    ensures petType == Some(DogType) ==> r == store.dogs
    ensures petType.None? ==> |r| == |store.cats| + |store.dogs|
    ensures petType.None? ==> r[..|store.cats|] == store.cats && r[|store.cats|..] == store.dogs
  {
    match petType
    case Some(CatType) => store.cats
    case Some(DogType) => store.dogs
    case None => store.cats + store.dogs
  }

  /** The untyped listing holds every cat before any dog. */
  lemma FindAllCatsFirst(store: Store)
    ensures var all := FindAll(store, None);
      forall i, j :: 0 <= i < j < |all| && all[j].Cat? ==> all[i].Cat?
  {
    var all := FindAll(store, None);
    forall i, j | 0 <= i < j < |all| && all[j].Cat?
      ensures all[i].Cat?
    {
      assert all[i] == store.cats[i];
    }
  }

  /** The cats of the untyped listing are the cat listing and its dogs the
      dog listing, each in collection order. */
  lemma FindAllSplits(store: Store)
    ensures Filter(FindAll(store, None), IsCat) == FindAll(store, Some(CatType))
    ensures Filter(FindAll(store, None), IsDog) == FindAll(store, Some(DogType))
  {
    FilterAppend<Pet>(store.cats, store.dogs, IsCat);
    FilterAll<Pet>(store.cats, IsCat);
    FilterNone<Pet>(store.dogs, IsCat);
    FilterAppend<Pet>(store.cats, store.dogs, IsDog);
    FilterNone<Pet>(store.cats, IsDog);
    FilterAll<Pet>(store.dogs, IsDog);
  }

  /** The weight of the untyped listing is the cats' weight plus the dogs' weight. */
  lemma FindAllWeight(store: Store)
    ensures GetTotalWeight(FindAll(store, None)) == GetCatsWeight(store) + GetDogsWeight(store)
  {
    TotalWeightAppend(store.cats, store.dogs);
  }

  /** The position of the first document with the given id, if any. */
  function IndexOfId(docs: seq<Pet>, id: ObjectId): (r: Option<nat>)
    ensures r.Some? ==> r.value < |docs| && docs[r.value].id == id
    ensures r.Some? ==> forall j :: 0 <= j < r.value ==> docs[j].id != id
    ensures r.None? <==> forall j :: 0 <= j < |docs| ==> docs[j].id != id
  {
    if docs == [] then None
    else if docs[0].id == id then Some(0)
    else match IndexOfId(docs[1..], id)
      case None => None
      case Some(i) => Some(i + 1)
  }

  /** `findCatById`: the cat with that id, or an exception with status 500
      when the collection holds none. */
  function FindCatById(store: Store, catId: ObjectId): (r: Result<CatRecord>)
    ensures r.Ok? <==> exists c :: c in store.cats && c.id == catId
    ensures r.Ok? ==> r.value in store.cats && r.value.id == catId
    ensures r.Ok? && store.Valid() ==> forall c :: c in store.cats && c.id == catId ==> c == r.value
    ensures r.Err? ==> r.error == HttpException(CAT_NOT_FOUND, INTERNAL_SERVER_ERROR)
  {
    match IndexOfId(store.cats, catId)
    case Some(i) =>
      DistinctByUnique(store.cats, CatId, i);
      Ok(store.cats[i])
    case None => Err(HttpException(CAT_NOT_FOUND, INTERNAL_SERVER_ERROR))
  }

  /** `findDogById`: the dog with that id, or an exception with status 500
      when the collection holds none. */
  function FindDogById(store: Store, dogId: ObjectId): (r: Result<DogRecord>)
    ensures r.Ok? <==> exists d :: d in store.dogs && d.id == dogId
    ensures r.Ok? ==> r.value in store.dogs && r.value.id == dogId
    ensures r.Ok? && store.Valid() ==> forall d :: d in store.dogs && d.id == dogId ==> d == r.value
    ensures r.Err? ==> r.error == HttpException(DOG_NOT_FOUND, INTERNAL_SERVER_ERROR)
  {
    match IndexOfId(store.dogs, dogId)
    case Some(i) =>
      DistinctByUnique(store.dogs, DogId, i);
      Ok(store.dogs[i])
    case None => Err(HttpException(DOG_NOT_FOUND, INTERNAL_SERVER_ERROR))
  }

  /** `getCatsWeight`: the sum of the cats' weights. */
  function GetCatsWeight(store: Store): (r: int)
    ensures r == SumOfWeights(store.cats)
  {
    GetTotalWeight(store.cats)
  }

  /** `getDogsWeight`: the sum of the dogs' weights. */
  function GetDogsWeight(store: Store): (r: int)
    ensures r == SumOfWeights(store.dogs)
  {
    GetTotalWeight(store.dogs)
  }

  /** The collection weights do not depend on the order the store returns
      its documents in. */
  lemma CollectionWeightsIgnoreOrder(s: Store, t: Store)
    requires multiset(s.cats) == multiset(t.cats)
    requires multiset(s.dogs) == multiset(t.dogs)
    ensures GetCatsWeight(s) == GetCatsWeight(t)
    ensures GetDogsWeight(s) == GetDogsWeight(t)
  {
    TotalWeightPermutation(s.cats, t.cats);
    TotalWeightPermutation(s.dogs, t.dogs);
  }

  predicate WagsTail(d: DogRecord) { d.wagsTail }

  /** The `name` of each dog, in order. */
  function Names(dogs: seq<DogRecord>): seq<string>
  {
    seq(|dogs|, i requires 0 <= i < |dogs| => dogs[i].name)
  }

  lemma NamesAppend(a: seq<DogRecord>, b: seq<DogRecord>)
    ensures Names(a + b) == Names(a) + Names(b)
  {
  }

  /** `getHappyDogs`: the names of the dogs that wag their tail. */
  function GetHappyDogs(store: Store): (names: seq<string>)
    ensures |names| <= |store.dogs|
    ensures forall n :: n in names <==> exists d :: d in store.dogs && d.wagsTail && d.name == n
  {
    var happy := Filter<DogRecord>(store.dogs, WagsTail);
    HappyNames(store.dogs, happy);
    Names(happy)
  }

  lemma HappyNames(dogs: seq<DogRecord>, happy: seq<DogRecord>)
    requires happy == Filter<DogRecord>(dogs, WagsTail)
    ensures forall n :: n in Names(happy) <==> exists d :: d in dogs && d.wagsTail && d.name == n
  {
    var names := Names(happy);
    forall n | n in names
      ensures exists d :: d in dogs && d.wagsTail && d.name == n
    {
      var i :| 0 <= i < |names| && names[i] == n;
      assert happy[i] in happy;
    }
    forall d | d in dogs && d.wagsTail
      ensures d.name in names
    {
      assert WagsTail(d);
      var i :| 0 <= i < |happy| && happy[i] == d;
      assert names[i] == d.name;
    }
  }

  /** The names come in collection order, one per happy dog, duplicates
      kept: the result distributes over a split of the dog collection ... */
  lemma HappyDogsDistribute(s: Store, t: Store, u: Store)
    requires s.dogs == t.dogs + u.dogs
    ensures GetHappyDogs(s) == GetHappyDogs(t) + GetHappyDogs(u)
  {
    var ht, hu := Filter<DogRecord>(t.dogs, WagsTail), Filter<DogRecord>(u.dogs, WagsTail);
    FilterAppend<DogRecord>(t.dogs, u.dogs, WagsTail);
    NamesAppend(ht, hu);
  }

  /** ... and a single dog contributes its name exactly when it wags its tail. */
  lemma HappyDogsSingle(s: Store)
    requires |s.dogs| == 1
    ensures GetHappyDogs(s) == if s.dogs[0].wagsTail then [s.dogs[0].name] else []
  {
    assert s.dogs[1..] == [];
    assert Filter<DogRecord>(s.dogs, WagsTail) == (if s.dogs[0].wagsTail then [s.dogs[0]] else []) + Filter<DogRecord>(s.dogs[1..], WagsTail);
  }
}
