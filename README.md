# EmployeesContract, modelled in Dafny

A model of the `EmployeesContract` chaincode of MyPrivateAsset. The contract
keeps one kind of confidential record, `Employees` (surname, name, national id
`dni`, hiring date), in the caller organisation's implicit private data
collection `_implicit_org_<mspid>`. The peer publishes a hash of every stored
record. Per key, the contract runs a small lifecycle: create (absent to
present), update (present to present) and delete (present to absent). Existence
is decided from the published hash alone. A verification operation hashes a
candidate record and compares it with the hash recorded in any named
organisation's collection.

Files:

- `outcomes.dfy` (`Outcomes`): the `Option`, `Result` and `Outcome` types used for thrown errors.
- `private_data.dfy` (`PrivateData`): the peer's private data as the stub exposes it. `Ledger` holds
  content per (collection, key) and derives the recorded hash from it with a 32-byte digest function.
- `employees.dfy` (`Records`): the `Employees` record.
- `employees_contract.dfy` (`Contract`): collection naming, ordered validation of the transient map,
  hex encoding of digests, and the `EmployeesContract` class with its six operations.
- `scenarios.dfy` (`Scenarios`): a client that drives one record through its whole lifecycle on a fresh store.

The caller's organisation is an explicit `mspid` argument. The transient map is
an explicit `map<string, Bytes>` argument. The library conversions
(`Buffer.toString`, `Number`, `JSON.stringify`, `JSON.parse`) are fields of a
`Codec` value, and SHA-256 is the ledger's `hash` field. Nothing is assumed
about these functions except where a lemma names the assumption as a
`requires`: JSON round-tripping for reads, and freedom from collisions on two
given contents for verification.

## Model

| member | source | states |
|---|---|---|
| `Contract.CollectionName` | MyPrivateAsset/src/employees-contract.ts:9-13 | the collection is the prefix `_implicit_org_` followed by exactly the organisation id |
| `Contract.CollectionNamesDistinct` | MyPrivateAsset/src/employees-contract.ts:9-13 | two organisations share a collection name iff they are the same organisation, so partitions never overlap |
| `Contract.FirstAbsent` | MyPrivateAsset/src/employees-contract.ts:41-59 | the position of the first required key the map lacks: every earlier key is present and that one is absent (or all are present) |
| `Contract.ValidateTransient` | MyPrivateAsset/src/employees-contract.ts:37-59 | an empty map is refused first, and only an empty map gets that error; otherwise the error names the first absent key in the order name, surname, dni, hiringDate; success iff all four keys are present, whatever their values; the record's four fields come from those four entries |
| `Contract.Hex` | MyPrivateAsset/src/employees-contract.ts:135-141 | lower-case hexadecimal as `digest('hex')` and `toString('hex')` write it, two digits per byte with the high nibble first, so the text is twice as long as the bytes |
| `Contract.HexInjective` | MyPrivateAsset/src/employees-contract.ts:135-144 | two byte strings have equal lower-case hex encodings iff they are equal, so comparing hex digests compares digests |
| `PrivateData.Ledger.GetPrivateDataHash` | MyPrivateAsset/src/employees-contract.ts:22 | the recorded hash is non-empty iff content is stored under the key, and is then the hash of that content |
| `PrivateData.Ledger.GetPrivateData` | MyPrivateAsset/src/employees-contract.ts:76 | the stored content of a key, empty when absent |
| `PrivateData.Ledger.PutPrivateData` | MyPrivateAsset/src/employees-contract.ts:62 | only the written key changes; its recorded hash becomes the hash of the new content |
| `PrivateData.Ledger.DeletePrivateData` | MyPrivateAsset/src/employees-contract.ts:129 | only the deleted key changes; its recorded hash becomes empty |
| `Contract.EmployeesContract.EmployeesExists` | MyPrivateAsset/src/employees-contract.ts:20-24 | true iff content is stored under the key in the caller's collection; decided from the hash, and it changes nothing |
| `Contract.EmployeesContract.BuildFromTransient` | MyPrivateAsset/src/employees-contract.ts:33-59 | the field-by-field construction with early exits gives exactly the result of `ValidateTransient` |
| `Contract.EmployeesContract.CreateEmployees` | MyPrivateAsset/src/employees-contract.ts:27-63 | an existing key fails with AlreadyExists before the transient map is considered; then validation errors in order; success iff the key was absent and validation passed; every failure leaves the store unchanged; success writes the serialised record under the key and nothing else, after which the key exists |
| `Contract.EmployeesContract.ReadEmployees` | MyPrivateAsset/src/employees-contract.ts:67-80 | DoesNotExist iff the key is absent; Malformed iff it is present but its content does not parse; success iff it is present and parses, and the result is then the parsed stored content |
| `Contract.EmployeesContract.UpdateEmployees` | MyPrivateAsset/src/employees-contract.ts:83-119 | an absent key fails with DoesNotExist; then the same ordered validation; failures leave the store unchanged; success replaces the whole stored content with the new serialised record and touches no other key; existence never changes |
| `Contract.EmployeesContract.DeleteEmployees` | MyPrivateAsset/src/employees-contract.ts:122-130 | succeeds iff the key existed; failure is DoesNotExist with the store unchanged; success removes that key only; afterwards the key does not exist |
| `Contract.EmployeesContract.VerifyEmployees` | MyPrivateAsset/src/employees-contract.ts:133-149 | reads the collection of the named organisation; NoPrivateDataHash iff nothing is stored there under the key; success iff a hash is recorded, and the result is then true iff the candidate's hash equals the recorded hash, which needs the hex comparison to be a digest comparison |
| `Contract.EmployeesContract.VerifyAcceptsStoredRecord` | MyPrivateAsset/src/employees-contract.ts:133-149 | a candidate that serialises to the stored content verifies as true |
| `Contract.EmployeesContract.VerifyDecidesStoredContent` | MyPrivateAsset/src/employees-contract.ts:133-149 | when the hash does not collide on the two contents, verification answers exactly whether the candidate serialises to the stored content |
| `Contract.EmployeesContract.ReadReturnsStoredRecord` | MyPrivateAsset/src/employees-contract.ts:67-80 | reading content written from a record gives that record back, given that JSON parsing inverts serialisation for it |
| `Scenarios.Lifecycle` | MyPrivateAsset/src/employees-contract.ts:27-149 | on a fresh store: create succeeds, a second create fails with AlreadyExists, update succeeds, read returns the updated record, verify of that record is true, verify of any candidate compares hashes, another organisation does not see the key, delete succeeds, and afterwards read fails with DoesNotExist and the key does not exist |

Points where the model follows the code closely:

- Validation checks only that each key is present, not that its value is non-empty (employees-contract.ts:41-59). An empty value is accepted.
- Verification compares hex strings, not digest bytes (employees-contract.ts:135-144). `HexInjective` shows that the two comparisons agree.
- Line 136 spells the collection name inline rather than through `getCollectionName`. The derivation is the same, and the model uses `CollectionName` for both.

## Left out

- Fabric's stub, client identity and the `@Transaction`/`@Returns`/`@Info` decorators: they are library code. The stub is the `Ledger` class and the caller's MSP id is a parameter.
- SHA-256, `JSON.stringify`, `JSON.parse`, `Buffer.toString` and `Number`: they are library code and appear as uninterpreted function-valued fields. The peer's hash of stored content and the contract's own `crypto` SHA-256 are the same function `Ledger.hash`.
- `Number(...)` on the `dni` bytes can give `NaN` or a non-integer in JavaScript. The model's `number` returns an `int`, so floating point is not modelled.
- Property order in `JSON.stringify`: `stringify` is a function of the four field values. The source serialises a created record in assignment order (name, surname, dni, hiringDate). A candidate passed to `verifyEmployees` serialises in the order its properties arrive. The model does not tell these orders apart.
- Contract.EmployeesContract.ReadEmployees: the source returns whatever `JSON.parse` yields, of any shape. The model's `parse` yields an `Employees` or nothing.
- `new Employees()` starts with all four properties undefined. The model starts from placeholder values, and all four are overwritten before anything is written.
- async/await and concurrent invocations: each operation awaits its store calls in sequence, and isolation between transactions belongs to the peer.
- The exact text of error messages: each error constructor carries the key or field name its message mentions.
- `employees-contract.spec.ts` is a test harness, and most of its expectations describe an older schema. It is not part of this model.
