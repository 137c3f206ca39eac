/** A client of the contract: one record's lifecycle on a fresh store. */
module Scenarios {
  import opened Outcomes
  import opened PrivateData
  import opened Records
  import opened Contract

  /**
   * Creates `id` for organisation `mspid` from `first`, tries to create it
   * again, replaces it from `second`, reads it back, verifies it, looks for it
   * under another organisation, deletes it and reads it once more.
   */
  method Lifecycle(hash: Bytes -> Digest, codec: Codec, mspid: string, otherMspid: string, id: string,
                   first: Transient, second: Transient, candidate: Employees)
    returns (created: Outcome<Error>, createdAgain: Outcome<Error>, updated: Outcome<Error>,
             read: Result<Employees, Error>, verified: Result<bool, Error>, verifiedCandidate: Result<bool, Error>,
             elsewhere: bool, deleted: Outcome<Error>, readAfter: Result<Employees, Error>, present: bool)
    requires ValidateTransient(codec, first).Success? && ValidateTransient(codec, second).Success?
    requires RoundTrips(codec, ValidateTransient(codec, second).value)
    requires otherMspid != mspid
    ensures created == Pass && createdAgain == Fail(AlreadyExists(id)) && updated == Pass
    ensures read == ValidateTransient(codec, second)
    ensures verified == Success(true)
    ensures verifiedCandidate ==
              Success(hash(codec.stringify(candidate)) == hash(codec.stringify(ValidateTransient(codec, second).value)))
    ensures !elsewhere
    ensures deleted == Pass && readAfter == Failure(DoesNotExist(id)) && !present
  {
    var ledger := new Ledger(hash);
    var contract := new EmployeesContract(ledger, codec);
    created := contract.CreateEmployees(mspid, id, first);
    createdAgain := contract.CreateEmployees(mspid, id, first);
    updated := contract.UpdateEmployees(mspid, id, second);
    var record := ValidateTransient(codec, second).value;
    contract.ReadReturnsStoredRecord(mspid, id, record);
    read := contract.ReadEmployees(mspid, id);
    contract.VerifyAcceptsStoredRecord(mspid, id, record);
    verified := contract.VerifyEmployees(mspid, id, record);
    verifiedCandidate := contract.VerifyEmployees(mspid, id, candidate);
    CollectionNamesDistinct(mspid, otherMspid);
    elsewhere := contract.EmployeesExists(otherMspid, id);
    deleted := contract.DeleteEmployees(mspid, id);
    readAfter := contract.ReadEmployees(mspid, id);
    present := contract.EmployeesExists(mspid, id);
  }
}
