/** The documents of the three collections (cats, dogs, owners) and the
    store that holds them. */
module Schemas {
  import opened Seqs

  /** The opaque `_id` the store gives every document. */
  type ObjectId = string

  /** A pet document. Both kinds carry name, age, breed and weight; a cat
      adds `hasClippedClaws`, a dog adds `wagsTail`. */
  datatype Pet =
    | Cat(id: ObjectId, name: string, age: int, breed: string, weight: int, hasClippedClaws: bool)
    | Dog(id: ObjectId, name: string, age: int, breed: string, weight: int, wagsTail: bool)

  /** A document of the cats collection. */
  type CatRecord = p: Pet | p.Cat? witness Cat("", "", 0, "", 0, false)

  /** A document of the dogs collection. */
  type DogRecord = p: Pet | p.Dog? witness Dog("", "", 0, "", 0, false)

  /** An owner holds the ids of its pets only; nothing checks that they exist. */
  datatype Owner = Owner(id: ObjectId, name: string, age: int, cats: seq<ObjectId>, dogs: seq<ObjectId>)

  /** The document store, each collection in its natural order. */
  datatype Store = Store(cats: seq<CatRecord>, dogs: seq<DogRecord>, owners: seq<Owner>)
  {
    /** The store keeps `_id` unique within each collection. */
    predicate Valid()
    {
      DistinctBy(cats, CatId) && DistinctBy(dogs, DogId) && DistinctBy(owners, OwnerId)
    }
  }

  function CatId(c: CatRecord): ObjectId { c.id }

  function DogId(d: DogRecord): ObjectId { d.id }

  function OwnerId(o: Owner): ObjectId { o.id }
}
