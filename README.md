# Pets service: query semantics in Dafny

This project models the query logic of a small NestJS and MongoDB pets service.
The document store is three collections: cats, dogs and owners. Here it is a
value, `Schemas.Store`. Each collection is a sequence of records in collection
order, and every service operation is a function of that value:

- `findAll` lists the pets.
- `findCatById` and `findDogById` look a pet up by id.
- `getCatsWeight` and `getDogsWeight` sum weights through the `getTotalWeight` fold.
- `getHappyDogs` lists the names of the dogs that wag their tail.
- `getTopThreePetOwnersAtAge` ranks the owners.

The ranking has two parts:

- An aggregation pipeline, modelled as pure functions: `$group` by total pet
  count, `$sort` descending, and `$lookup` of owners with their cats and dogs.
- A post-processing loop that filters each group by age and keeps the first
  three groups. It is modelled as a method with a `for` loop, proved equal to
  the function `OwnerRanking.TopOwners`.

Modules:

- `Seqs`: filter, distinct keys and a counting lemma.
- `Schemas`: the documents and the store.
- `WeightHelper`: the weight fold.
- `PetsService`: listing, lookups, weights and happy dogs.
- `OwnerRanking`: the ranking as the code computes it.
- `OwnerRankingIntended`: the ranking its end-to-end test expects.
- `OwnerRankingFixture`: that test's data, on which the two differ.

The service model follows the code. The intended ranking is a separate
definition, placed next to it for comparison (see Findings).

## Model

| member | source | states |
|---|---|---|
| WeightHelper.GetTotalWeight | src/pets/weight.helper.ts:3-5 | The reduce from 0 equals the sum of the `weight` fields and is 0 for an empty list. |
| WeightHelper.ReduceIsSum | src/pets/weight.helper.ts:4 | The left-to-right reduce from any start value is that start plus the sum of the weights. |
| WeightHelper.TotalWeightAppend | src/pets/weight.helper.ts:4 | The total is additive over concatenation. |
| WeightHelper.TotalWeightRemove | src/pets/weight.helper.ts:4 | Removing one pet removes exactly its weight from the total. |
| WeightHelper.TotalWeightPermutation | src/pets/weight.helper.ts:4 | Two lists that are permutations of each other have the same total. |
| WeightHelper.TotalWeightOnlyWeights | src/pets/weight.helper.ts:3-4 | Lists whose weights agree position by position have equal totals, whatever their other fields; this justifies the weight-only projection. |
| PetsService.FindAll | src/pets/pets.service.ts:35-47 | With a cat type it returns the stored cats, and with a dog type the stored dogs, each in collection order. Without a type it returns the stored cats followed by the stored dogs. |
| PetsService.FindAllCatsFirst | src/pets/pets.service.ts:42-45 | In the untyped listing no dog precedes a cat. |
| PetsService.FindAllSplits | src/pets/pets.service.ts:35-47 | The cats of the untyped listing, in order, are exactly the cat listing, and its dogs are exactly the dog listing. |
| PetsService.FindAllWeight | src/pets/pets.service.ts:73-82 | The total weight of the untyped listing is the cats' weight plus the dogs' weight. |
| PetsService.IndexOfId | src/pets/pets.service.ts:50 | Gives the position of the first document with the id, or none exactly when no document has it. |
| PetsService.FindCatById | src/pets/pets.service.ts:49-59 | Succeeds exactly when a stored cat has the id, and returns a stored cat with that id, the only one when ids are unique. Otherwise it fails with "Cat with given id can not be found" and status 500. |
| PetsService.FindDogById | src/pets/pets.service.ts:61-71 | The same for dogs, with "Dog with given id can not be found" and status 500. |
| PetsService.GetCatsWeight | src/pets/pets.service.ts:73-77 | The sum of the stored cats' weights. |
| PetsService.GetDogsWeight | src/pets/pets.service.ts:79-82 | The sum of the stored dogs' weights. |
| PetsService.CollectionWeightsIgnoreOrder | src/pets/pets.service.ts:73-82 | The collection weights do not depend on the order the store returns documents in. |
| PetsService.GetHappyDogs | src/pets/pets.service.ts:84-87 | A name is returned exactly when some stored dog that wags its tail has it. There are never more names than dogs. |
| PetsService.HappyDogsDistribute | src/pets/pets.service.ts:85 | The result distributes over a split of the dog collection. It therefore keeps collection order and duplicate names. |
| PetsService.HappyDogsSingle | src/pets/pets.service.ts:85 | A single dog contributes its name exactly when it wags its tail. |
| OwnerRanking.InsertDesc | src/pets/pets.service.ts:99 | Inserting a count into a strictly decreasing list keeps it strictly decreasing and adds just that count. |
| OwnerRanking.SortedPetsCounts | src/pets/pets.service.ts:92-99 | The group keys are strictly decreasing (so distinct), and a count is present exactly when some owner has that many cat ids plus dog ids. |
| OwnerRanking.ResolveCats | src/pets/pets.service.ts:106-117 | The resolved cats are exactly the stored cats whose id the owner lists. A dangling id adds nothing, a repeated id adds no second copy, and unique cat ids stay unique. |
| OwnerRanking.ResolveDogs | src/pets/pets.service.ts:118-129 | The same for dogs. |
| OwnerRanking.GroupAndSortGroups | src/pets/pets.service.ts:92-99 | The `$group` and `$sort` stages give groups ordered largest count first. Each group's id set holds exactly the ids of the owners with its count, and no group is empty. Every owner is in the group of its own count. |
| OwnerRanking.View | src/pets/pets.service.ts:106-129 | A resolved owner keeps the owner's id, name and age. |
| OwnerRanking.ViewPets | src/pets/pets.service.ts:106-129 | A resolved owner holds exactly the stored cats and dogs whose ids the owner lists. |
| OwnerRanking.LookupOwners | src/pets/pets.service.ts:100-133 | The group's owners are exactly the stored owners whose id is in the group's id set, each with its pets resolved, and none twice when owner ids are unique. |
| OwnerRanking.LookupByCount | src/pets/pets.service.ts:100-105 | With unique owner ids, looking up the id set of a count yields exactly the stored owners with that count, each resolved. |
| OwnerRanking.AggregateCounts | src/pets/pets.service.ts:90-99 | The pipeline yields a document for every owner's total pet count, and every document's count is some owner's. |
| OwnerRanking.AggregateGroups | src/pets/pets.service.ts:90-134 | With unique owner ids, the documents come largest count first. Each lists exactly the stored owners with its count, each with its pets resolved. Together with `AggregateCounts`, this gives one document per count. |
| OwnerRanking.AtAge | src/pets/pets.service.ts:141 | Keeps exactly the listed owners of the requested age. |
| OwnerRanking.Entry | src/pets/pets.service.ts:139-142 | The pushed entry carries the group's count and exactly the group's owners of the requested age. |
| OwnerRanking.TopOwners | src/pets/pets.service.ts:89-146 | At most three entries, with strictly decreasing `petsCount`. Every listed owner has the requested age. |
| OwnerRanking.TopThreePetOwnersAtAge | src/pets/pets.service.ts:137-145 | The loop that pushes one entry per group, followed by the slice, returns exactly `TopOwners`, with the same three properties. |
| OwnerRanking.TopOwnersShape | src/pets/pets.service.ts:137-145 | With unique owner ids, an owner is listed under an entry exactly when it is a stored owner of the requested age whose cat ids plus dog ids equal the entry's count. It is shown with its pets resolved. |
| OwnerRanking.TopOwnersCounts | src/pets/pets.service.ts:137-145 | There are as many entries as distinct counts among all owners, at most three. Entry i carries an owner's count that exactly i distinct counts, of owners of any age, exceed. |
| OwnerRanking.RankOfCount | src/pets/pets.service.ts:92-99 | An owner's count sits in the sorted keys at the position equal to the number of distinct larger counts. |
| OwnerRanking.TopOwnersSlots | src/pets/pets.service.ts:145 | A count gets an entry exactly when some owner has it and fewer than three distinct counts of owners of any age exceed it. |
| OwnerRanking.SlotsIgnoreAge | src/pets/pets.service.ts:137-145 | The number of entries and their counts are the same for every requested age. |
| OwnerRanking.GroupWithoutOwnerAtAgeIsEmpty | src/pets/pets.service.ts:141 | A group with no owner of the requested age is still emitted, with an empty owner list. |
| OwnerRanking.ListedOwnerIsStored | src/pets/pets.service.ts:94 | Every listed owner is a stored owner of the requested age, shown with its pets resolved. Its cat ids plus dog ids equal the entry's `petsCount`. |
| OwnerRanking.EntryIdsDistinct | src/pets/pets.service.ts:96 | Within an entry no owner id is listed twice. |
| OwnerRanking.SameIdSameEntry | src/pets/pets.service.ts:92-97 | An owner id listed under two entries means they are the same entry. |
| OwnerRanking.NoOwnerListedTwice | src/pets/pets.service.ts:92-97 | No owner appears in two entries. |
| OwnerRanking.OwnerAtAgeIsListed | src/pets/pets.service.ts:105 | Every stored owner of the requested age whose count is among the three largest counts of all owners is listed under that count. |
| OwnerRankingIntended.SortByPetsCount | test/pets/get-top-owners.e2e-spec.ts:31 | Sorts owners by pet count, largest first, as a permutation. |
| OwnerRankingIntended.Ranked | test/pets/get-top-owners.e2e-spec.ts:31 | The owners of the requested age, sorted most pets first, holding exactly the stored owners of that age. With unique ids, none is there twice. |
| OwnerRankingIntended.Chosen | test/pets/get-top-owners.e2e-spec.ts:31 | At most three owners, all stored and of the requested age. With fewer than three chosen, every stored owner of that age is chosen. |
| OwnerRankingIntended.ChosenNoDuplicates | test/pets/get-top-owners.e2e-spec.ts:31 | With unique owner ids, no owner is chosen twice, so `Chosen` holds min(3, owners of that age) distinct owners. |
| OwnerRankingIntended.ChosenIdsDistinct | test/pets/get-top-owners.e2e-spec.ts:31 | With unique owner ids, the chosen owners have pairwise distinct ids. |
| OwnerRankingIntended.ChosenIncludes | test/pets/get-top-owners.e2e-spec.ts:31 | With unique ids, an owner is chosen when at most three owners of its age, itself included, have at least its number of pets. |
| OwnerRankingIntended.ChosenHoldsTheTop | test/pets/get-top-owners.e2e-spec.ts:31 | An owner of the requested age with more pets than a chosen one is chosen too. |
| OwnerRankingIntended.TopThreeOwnersIntended | test/pets/get-top-owners.e2e-spec.ts:95-143 | At most three entries, with strictly decreasing `petsCount`. Its owners are exactly the chosen ones: `ListedIsChosen` and `ChosenCountListed` give the two directions. Each appears once: `IntendedEntryIdsDistinct` covers a single entry and `IntendedSameIdSameEntry` covers two entries. |
| OwnerRankingIntended.IntendedEntries | test/pets/get-top-owners.e2e-spec.ts:95-143 | Every entry lists at least one owner. Every listed owner is a stored owner of the requested age with the entry's count. |
| OwnerRankingIntended.ListedIsChosen | test/pets/get-top-owners.e2e-spec.ts:31 | Every listed owner is a chosen owner with the entry's count, shown with its pets resolved. |
| OwnerRankingIntended.IntendedEntryIdsDistinct | test/pets/get-top-owners.e2e-spec.ts:95-143 | With unique owner ids, no owner id is listed twice within an entry. |
| OwnerRankingIntended.IntendedSameIdSameEntry | test/pets/get-top-owners.e2e-spec.ts:95-143 | With unique owner ids, an owner id listed under two entries means they are the same entry. Together with `ListedIsChosen` and `IntendedEntryIdsDistinct`, no chosen owner fills two positions. |
| OwnerRankingIntended.ChosenCountListed | test/pets/get-top-owners.e2e-spec.ts:95-143 | Every chosen owner is listed, with its pets resolved, under the entry of its own count. |
| OwnerRankingIntended.IntendedListsCount | test/pets/get-top-owners.e2e-spec.ts:31 | With unique ids, the count of an owner of the requested age has an entry when fewer than three owners of that age have more pets. |
| OwnerRankingIntended.IntendedListsTheTop | test/pets/get-top-owners.e2e-spec.ts:31 | An owner of the requested age with more pets than some listed count is listed. |
| OwnerRankingIntended.IntendedCutsAtThree | test/pets/get-top-owners.e2e-spec.ts:31 | If three distinct owners of the requested age each have more pets than a count, that count is not listed. |
| OwnerRankingFixture.FixtureCounts | test/pets/get-top-owners.e2e-spec.ts:32-81 | Owners shaped like the test's fixture have the distinct counts 4, 3 and 2. |
| OwnerRankingFixture.ShapeAsWritten | src/pets/pets.service.ts:89-146 | On such owners at age 50, the code returns entries with counts 4, 3 and 2. The third lists owners 2 and 4. |
| OwnerRankingFixture.FixtureTopThree | test/pets/get-top-owners.e2e-spec.ts:31 | Among such owners, at most three aged 50 have 3 or more pets, and at most three have 4 or more. |
| OwnerRankingFixture.IntendedFixtureCounts | test/pets/get-top-owners.e2e-spec.ts:95-143 | On such owners at age 50, every entry of the intended ranking has 3 or 4 pets. |
| OwnerRankingFixture.FixtureOwnerListed | test/pets/get-top-owners.e2e-spec.ts:95-143 | On such owners at age 50, owners 1, 3 and 5 are each listed, with their pets resolved, under the entry of their own count. |
| OwnerRankingFixture.ShapeIntended | test/pets/get-top-owners.e2e-spec.ts:95-143 | On such owners at age 50, the intended ranking has exactly two entries: count 4 listing owner 5, then count 3 listing owners 1 and 3. |
| OwnerRankingFixture.FixtureDivergence | test/pets/get-top-owners.e2e-spec.ts:95-143 | On the test's own fixture the code returns three entries, the third with count 2 and owners 2 and 4. The intended ranking returns what the test expects: two entries, count 4 with owner 5, then count 3 with owners 1 and 3. |

## Left out

- Pagination: the listing tests check `limit` and `page` fields, but `findAll`
  takes no paging arguments and no code shown implements paging.
- Inserts (`addCat`, `addDog`, `addOwner`, src/pets/pets.service.ts:20-33):
  these are persistence calls, not modelled. Note that `addOwner` builds its
  document with the dog model (:31).
- HTTP routing and dependency injection: left out, including the route of
  `GET /pets/top-owners/:age`, which binds a parameter named `id`.
- Id generation and the randomly generated test data: left out. The fixture
  module fixes concrete values with the test's shape.
- Async: `await` has no concurrency here, so every call is a plain function of
  the store.
- Numbers: weights are JavaScript floating-point numbers in the source and
  `int` here, so no rounding is modelled. Age is compared with loose `==` in
  the source and modelled as an `int` compared exactly.
- Store-defined order: the order of owners inside a group and of resolved pets
  is fixed to collection order here. The contracts about them speak of
  membership, which does not depend on that order.
- The weight-only projection (src/pets/pets.service.ts:74, :80) is not a
  separate step. `WeightHelper.TotalWeightOnlyWeights` shows that no other
  field affects the total.
- Malformed ids: a malformed id makes the store throw a cast error before the
  lookup runs. That error is not modelled; every id is a string that either
  matches a document or does not.
- The mongoose schemas' validation and defaults are not part of this model.
- Missing fields: the schemas (src/pets/schemas/cat.schema.ts:4-10,
  dog.schema.ts:4-10, owner.schema.ts:3-18) mark no field as required, but the
  model gives every document every field. So it does not capture a pet
  without `weight`, which makes the reduce (src/pets/weight.helper.ts:4)
  yield NaN. Nor does it capture a dog without `name`, which contributes
  `undefined` to the happy-dog names (src/pets/pets.service.ts:85), or an
  owner without `age`, whom no requested age matches.

## Findings

| source | as written | input that shows it | evidently intended | confidence | as-written member | corrected member |
|---|---|---|---|---|---|---|
| src/pets/pets.service.ts:89-146 | Groups all owners, of every age, by pet count; keeps the first three groups; filters by age only inside each group. Groups with no owner of that age take slots, and owners of other ages push counts out. | The fixture of test/pets/get-top-owners.e2e-spec.ts:32-81 at age 50: one owner aged 49 with 3 pets, and owners aged 50 with 3, 2, 3, 2 and 4 pets. The code returns a third entry with count 2 (owners 2 and 4). | The top three owners of that age, grouped by count: entries 4 (owner 5) and 3 (owners 1 and 3), as the test expects at :95-143. | not executed | OwnerRankingFixture.FixtureDivergence | OwnerRankingIntended.TopThreeOwnersIntended |
