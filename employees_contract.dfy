/**
 * The EmployeesContract chaincode: a per-key lifecycle (absent, present) over
 * the caller organisation's implicit private collection, plus a check of a
 * candidate record against the hash recorded in any organisation's collection.
 */
module Contract {
  import opened Outcomes
  import opened PrivateData
  import opened Records

  /** The per-call transient map, kept out of the transaction log. */
  type Transient = map<string, Bytes>

  /**
   * The library conversions the contract relies on:
   * `text` is `Buffer.toString()` (UTF-8 decoding), `number` is `Number(buffer)`,
   * `stringify` is the UTF-8 bytes of `JSON.stringify(record)`, and `parse` is
   * `JSON.parse(buffer.toString())`, with `None` where it throws.
   */
  datatype Codec = Codec(
    text: Bytes -> string,
    number: Bytes -> int,
    stringify: Employees -> Bytes,
    parse: Bytes -> Option<Employees>)

  /** JSON parsing gives back a record that JSON serialisation produced. */
  ghost predicate RoundTrips(codec: Codec, e: Employees)
  {
    codec.parse(codec.stringify(e)) == Some(e)
  }

  /** The errors the contract throws. */
  datatype Error =
    | AlreadyExists(id: string)        // "The asset employees <id> already exists"
    | DoesNotExist(id: string)         // "The asset employees <id> does not exist"
    | NoTransientData                  // "Was not specified transient data. ..."
    | MissingKey(key: string)          // "The <key> key was not specified in transient data. ..."
    | NoPrivateDataHash(id: string)    // "No private data hash with the Key: <id>"
    | Malformed(id: string)            // JSON.parse rejected the stored content

  // ---------------------------------------------------------------------------
  // Collections

  const ImplicitOrgPrefix: string := "_implicit_org_"

  /** The implicit private collection of an organisation. */
  function CollectionName(mspid: string): (c: string)
    ensures |c| == |ImplicitOrgPrefix| + |mspid|
    ensures c[..|ImplicitOrgPrefix|] == ImplicitOrgPrefix
    ensures c[|ImplicitOrgPrefix|..] == mspid
  {
    ImplicitOrgPrefix + mspid
  }

  /** Distinct organisations never share a collection. */
  lemma CollectionNamesDistinct(a: string, b: string)
    ensures CollectionName(a) == CollectionName(b) <==> a == b
  {
  }

  // ---------------------------------------------------------------------------
  // Transient input validation

  /** The transient keys create and update require, in the order they are checked. */
  const RequiredKeys: seq<string> := ["name", "surname", "dni", "hiringDate"]

  /** The position of the first of `keys` that `t` lacks, or `|keys|` when it has them all. */
  function FirstAbsent(t: Transient, keys: seq<string>): (i: nat)
    ensures i <= |keys|
    ensures forall j :: 0 <= j < i ==> keys[j] in t
    ensures i < |keys| ==> keys[i] !in t
    decreases |keys|
  {
    if keys == [] then 0
    else if keys[0] !in t then 0
    else 1 + FirstAbsent(t, keys[1..])
  }

  /**
   * The checks create and update apply to the transient map before writing:
   * an empty map is refused first, then the first required key it lacks is
   * reported; only the presence of a key is checked, never its value.
   */
  function ValidateTransient(codec: Codec, t: Transient): (r: Result<Employees, Error>)
    ensures r == Failure(NoTransientData) <==> |t| == 0
    ensures |t| > 0 && FirstAbsent(t, RequiredKeys) < |RequiredKeys| ==>
              r == Failure(MissingKey(RequiredKeys[FirstAbsent(t, RequiredKeys)]))
    ensures r.Success? <==> |t| > 0 && FirstAbsent(t, RequiredKeys) == |RequiredKeys|
    ensures r.Success? ==>
              && r.value.name == codec.text(t["name"])
              && r.value.surname == codec.text(t["surname"])
              && r.value.dni == codec.number(t["dni"])
              && r.value.hiringDate == codec.text(t["hiringDate"])
  {
    if |t| == 0 then Failure(NoTransientData)
    else if "name" !in t then Failure(MissingKey("name"))
    else if "surname" !in t then Failure(MissingKey("surname"))
    else if "dni" !in t then Failure(MissingKey("dni"))
    else if "hiringDate" !in t then Failure(MissingKey("hiringDate"))
    else Success(Employees(
      surname := codec.text(t["surname"]),
      name := codec.text(t["name"]),
      dni := codec.number(t["dni"]),
      hiringDate := codec.text(t["hiringDate"])))
  }

  // ---------------------------------------------------------------------------
  // Hex encoding of digests

  function HexDigit(n: nat): (c: char)
    requires n < 16
    ensures n < 10 ==> '0' <= c <= '9'
    ensures 10 <= n ==> 'a' <= c <= 'f'
  {
    if n < 10 then ('0' as int + n) as char else ('a' as int + n - 10) as char
  }

  /** Lower-case hexadecimal, two digits per byte, high nibble first, as `digest('hex')` writes it. */
  function Hex(b: Bytes): (s: string)
    ensures |s| == 2 * |b|
    ensures forall i :: 0 <= i < |b| ==>
              s[2 * i] == HexDigit(b[i] as int / 16) && s[2 * i + 1] == HexDigit(b[i] as int % 16)
  {
    if b == [] then ""
    else [HexDigit(b[0] as int / 16), HexDigit(b[0] as int % 16)] + Hex(b[1..])
  }

  /** Two hex digits fix the byte they encode. */
  lemma HexPairInjective(x: byte, y: byte)
    requires HexDigit(x as int / 16) == HexDigit(y as int / 16)
    requires HexDigit(x as int % 16) == HexDigit(y as int % 16)
    ensures x == y
  {
  }

  /** Comparing hex strings compares the bytes they encode. */
  lemma HexInjective(a: Bytes, b: Bytes)
    ensures Hex(a) == Hex(b) <==> a == b
  {
  }

  // ---------------------------------------------------------------------------
  // The contract

  class EmployeesContract {
    /** The private data store reached through the transaction context's stub. */
    const ledger: Ledger
    const codec: Codec

    constructor (ledger: Ledger, codec: Codec)
      ensures this.ledger == ledger && this.codec == codec
    {
      this.ledger := ledger;
      this.codec := codec;
    }

    /**
     * Whether `id` is stored in the caller's collection, decided from the
     * recorded hash alone, never from the content.
     */
    function EmployeesExists(mspid: string, id: string): (b: bool)
      reads ledger
      ensures b <==> (CollectionName(mspid), id) in ledger.priv
    {
      var data := ledger.GetPrivateDataHash(CollectionName(mspid), id);
      |data| > 0
    }

    /**
     * Reads the transient map and builds the record field by field, stopping
     * at the first check that fails.
     */
    method BuildFromTransient(transient: Transient) returns (r: Result<Employees, Error>)
      ensures r == ValidateTransient(codec, transient)
    {
      var asset := Employees("", "", 0, "");
      if |transient| == 0 {
        return Failure(NoTransientData);
      }
      if "name" !in transient {
        return Failure(MissingKey("name"));
      }
      asset := asset.(name := codec.text(transient["name"]));
      if "surname" !in transient {
        return Failure(MissingKey("surname"));
      }
      asset := asset.(surname := codec.text(transient["surname"]));
      if "dni" !in transient {
        return Failure(MissingKey("dni"));
      }
      asset := asset.(dni := codec.number(transient["dni"]));
      if "hiringDate" !in transient {
        return Failure(MissingKey("hiringDate"));
      }
      asset := asset.(hiringDate := codec.text(transient["hiringDate"]));
      return Success(asset);
    }

    /**
     * Creates `id` in the caller's collection from the transient map. An
     * existing key is refused before the map is looked at; every refusal
     * leaves the store as it was, and success is a single write.
     */
    method CreateEmployees(mspid: string, id: string, transient: Transient) returns (r: Outcome<Error>)
      modifies ledger
      ensures old(EmployeesExists(mspid, id)) ==> r == Fail(AlreadyExists(id))
      ensures !old(EmployeesExists(mspid, id)) && ValidateTransient(codec, transient).Failure? ==>
                r == Fail(ValidateTransient(codec, transient).error)
      ensures r.Pass? <==> !old(EmployeesExists(mspid, id)) && ValidateTransient(codec, transient).Success?
      ensures r.Fail? ==> ledger.priv == old(ledger.priv)
      ensures r.Pass? ==>
                ledger.priv == old(ledger.priv)[(CollectionName(mspid), id) :=
                                                  codec.stringify(ValidateTransient(codec, transient).value)]
      ensures r.Pass? ==> EmployeesExists(mspid, id)
    {
      var present := EmployeesExists(mspid, id);
      if present {
        return Fail(AlreadyExists(id));
      }
      var asset := BuildFromTransient(transient);
      if asset.Failure? {
        return Fail(asset.error);
      }
      var collectionName := CollectionName(mspid);
      ledger.PutPrivateData(collectionName, id, codec.stringify(asset.value));
      return Pass;
    }

    /**
     * The record stored under `id` in the caller's collection. A missing key
     * and content that does not parse are different errors.
     */
    function ReadEmployees(mspid: string, id: string): (r: Result<Employees, Error>)
      reads ledger
      ensures r == Failure(DoesNotExist(id)) <==> (CollectionName(mspid), id) !in ledger.priv
      ensures r == Failure(Malformed(id)) <==>
                (CollectionName(mspid), id) in ledger.priv &&
                codec.parse(ledger.priv[(CollectionName(mspid), id)]).None?
      ensures r.Success? <==>
                (CollectionName(mspid), id) in ledger.priv &&
                codec.parse(ledger.priv[(CollectionName(mspid), id)]).Some?
      ensures r.Success? ==> codec.parse(ledger.priv[(CollectionName(mspid), id)]) == Some(r.value)
    {
      if !EmployeesExists(mspid, id) then Failure(DoesNotExist(id))
      else
        var privateData := ledger.GetPrivateData(CollectionName(mspid), id);
        match codec.parse(privateData)
        case None => Failure(Malformed(id))
        case Some(e) => Success(e)
    }

    /**
     * Replaces the whole record stored under an existing `id` in the caller's
     * collection; refusals leave the store as it was.
     */
    method UpdateEmployees(mspid: string, id: string, transient: Transient) returns (r: Outcome<Error>)
      modifies ledger
      ensures !old(EmployeesExists(mspid, id)) ==> r == Fail(DoesNotExist(id))
      ensures old(EmployeesExists(mspid, id)) && ValidateTransient(codec, transient).Failure? ==>
                r == Fail(ValidateTransient(codec, transient).error)
      ensures r.Pass? <==> old(EmployeesExists(mspid, id)) && ValidateTransient(codec, transient).Success?
      ensures r.Fail? ==> ledger.priv == old(ledger.priv)
      ensures r.Pass? ==>
                ledger.priv == old(ledger.priv)[(CollectionName(mspid), id) :=
                                                  codec.stringify(ValidateTransient(codec, transient).value)]
      ensures EmployeesExists(mspid, id) == old(EmployeesExists(mspid, id))
    {
      var present := EmployeesExists(mspid, id);
      if !present {
        return Fail(DoesNotExist(id));
      }
      var asset := BuildFromTransient(transient);
      if asset.Failure? {
        return Fail(asset.error);
      }
      var collectionName := CollectionName(mspid);
      ledger.PutPrivateData(collectionName, id, codec.stringify(asset.value));
      return Pass;
    }

    /** Removes an existing `id` from the caller's collection. */
    method DeleteEmployees(mspid: string, id: string) returns (r: Outcome<Error>)
      modifies ledger
      ensures r.Pass? <==> old(EmployeesExists(mspid, id))
      ensures r.Fail? ==> r.error == DoesNotExist(id) && ledger.priv == old(ledger.priv)
      ensures r.Pass? ==> ledger.priv == old(ledger.priv) - {(CollectionName(mspid), id)}
      ensures !EmployeesExists(mspid, id)
    {
      var present := EmployeesExists(mspid, id);
      if !present {
        return Fail(DoesNotExist(id));
      }
      var collectionName := CollectionName(mspid);
      ledger.DeletePrivateData(collectionName, id);
      return Pass;
    }

    /**
     * Checks a candidate record against the hash recorded for `id` in the
     * collection of the organisation named by `mspid` (not necessarily the
     * caller's). A mismatch is a normal `false`; only a missing hash is an error.
     */
    function VerifyEmployees(mspid: string, id: string, objectToVerify: Employees): (r: Result<bool, Error>)
      reads ledger
      ensures r == Failure(NoPrivateDataHash(id)) <==> (CollectionName(mspid), id) !in ledger.priv
      ensures r.Success? <==> (CollectionName(mspid), id) in ledger.priv
      ensures r.Success? ==>
                (r.value <==> ledger.hash(codec.stringify(objectToVerify)) ==
                              ledger.hash(ledger.priv[(CollectionName(mspid), id)]))
    {
      var hashToVerify := Hex(ledger.hash(codec.stringify(objectToVerify)));
      var pdHashBytes := ledger.GetPrivateDataHash(CollectionName(mspid), id);
      if |pdHashBytes| == 0 then Failure(NoPrivateDataHash(id))
      else
        var actualHash := Hex(pdHashBytes);
        HexInjective(ledger.hash(codec.stringify(objectToVerify)), pdHashBytes);
        Success(hashToVerify == actualHash)
    }

    /** A record whose serialisation is what is stored verifies as true. */
    lemma VerifyAcceptsStoredRecord(mspid: string, id: string, e: Employees)
      requires (CollectionName(mspid), id) in ledger.priv
      requires ledger.priv[(CollectionName(mspid), id)] == codec.stringify(e)
      ensures VerifyEmployees(mspid, id, e) == Success(true)
    {
    }

    /**
     * When the hash is collision-free on the two contents involved, `true`
     * means the candidate serialises to exactly the stored content, and
     * `false` means it does not.
     */
    lemma VerifyDecidesStoredContent(mspid: string, id: string, e: Employees)
      requires (CollectionName(mspid), id) in ledger.priv
      requires var stored := ledger.priv[(CollectionName(mspid), id)];
               ledger.hash(codec.stringify(e)) == ledger.hash(stored) ==> codec.stringify(e) == stored
      ensures VerifyEmployees(mspid, id, e) ==
                Success(codec.stringify(e) == ledger.priv[(CollectionName(mspid), id)])
    {
    }

    /** Reading back content that serialised a record gives that record. */
    lemma ReadReturnsStoredRecord(mspid: string, id: string, e: Employees)
      requires (CollectionName(mspid), id) in ledger.priv
      requires ledger.priv[(CollectionName(mspid), id)] == codec.stringify(e)
      requires RoundTrips(codec, e)
      ensures ReadEmployees(mspid, id) == Success(e)
    {
    }
  }
}
