/** The refresh-token store: an in-memory sequence of records in insertion
    order. Lookup sees only records that are not revoked; revocation flips
    one record's flag in place; saving appends. */
module RefreshTokenStore {
  import opened Models

  /** Position of the first record whose token string is exactly `token` and
      that is not revoked, if any (the query
      `FirstOrDefault(rt => rt.Token == token && !rt.IsRevoked)`). */
  function FirstActive(records: seq<RefreshToken>, token: string): (r: Option<nat>)
    ensures r.Some? ==> r.value < |records|
                        && records[r.value].token == token && !records[r.value].isRevoked
    ensures r.Some? ==> forall j :: 0 <= j < r.value ==>
                          records[j].token != token || records[j].isRevoked
    ensures r.None? <==> forall j :: 0 <= j < |records| ==>
                           records[j].token != token || records[j].isRevoked
    decreases |records|
  {
    if |records| == 0 then None
    else if records[0].token == token && !records[0].isRevoked then Some(0)
    else
      match FirstActive(records[1..], token)
      case None => None
      case Some(k) => Some(k + 1)
  }

  /** Identifiers are assigned by the store in insertion order, starting at 1. */
  predicate TokenIdsAssigned(records: seq<RefreshToken>)
  {
    forall i :: 0 <= i < |records| ==> records[i].id == i + 1
  }

  /** No two records that are still usable carry the same token string. */
  predicate ActiveUnique(records: seq<RefreshToken>)
  {
    forall i, j :: 0 <= i < j < |records| && !records[i].isRevoked && !records[j].isRevoked
      ==> records[i].token != records[j].token
  }

  /** No record, revoked or not, carries this token string (the assumption
      that a freshly generated random string is new). */
  predicate Unused(records: seq<RefreshToken>, token: string)
  {
    forall i :: 0 <= i < |records| ==> records[i].token != token
  }

  /** The store after saving `record`: the store assigns the next identifier. */
  function Saved(records: seq<RefreshToken>, record: RefreshToken): (r: seq<RefreshToken>)
    ensures |r| == |records| + 1 && r[..|records|] == records
    ensures r[|records|] == record.(id := |records| + 1)
    ensures TokenIdsAssigned(records) ==> TokenIdsAssigned(r)
  {
    records + [record.(id := |records| + 1)]
  }

  /** The store after the record at position `i` is marked revoked. */
  function Revoked(records: seq<RefreshToken>, i: nat): (r: seq<RefreshToken>)
    requires i < |records|
    ensures |r| == |records| && r[i].isRevoked
    ensures r[i].(isRevoked := records[i].isRevoked) == records[i]
    ensures forall j :: 0 <= j < |r| && j != i ==> r[j] == records[j]
    ensures TokenIdsAssigned(records) ==> TokenIdsAssigned(r)
  {
    records[i := records[i].(isRevoked := true)]
  }

  /** Once revoked, a record is never returned by a lookup again. */
  lemma RevokedNotFound(records: seq<RefreshToken>, i: nat, token: string)
    requires i < |records|
    ensures FirstActive(Revoked(records, i), token) != Some(i)
  {
  }

  /** Revoking a record that is already revoked changes nothing. */
  lemma RevokeIdempotent(records: seq<RefreshToken>, i: nat)
    requires i < |records| && records[i].isRevoked
    ensures Revoked(records, i) == records
  {
  }

  /** Saving appends at the end, so it never changes an existing match, and
      the saved record is found only when nothing earlier matches. */
  lemma {:induction false} FirstActiveAfterSave(records: seq<RefreshToken>, record: RefreshToken, token: string)
    ensures FirstActive(records, token).Some? ==>
              FirstActive(Saved(records, record), token) == FirstActive(records, token)
    ensures FirstActive(records, token).None? ==>
              FirstActive(Saved(records, record), token) ==
                if record.token == token && !record.isRevoked then Some(|records|) else None
  {
    var after := Saved(records, record);
    match FirstActive(records, token)
    case Some(i) =>
      assert after[i] == records[i];
      var k := FirstActive(after, token).value;
      assert k <= i;
      assert after[k] == records[k];
    case None =>
      assert forall j :: 0 <= j < |records| ==> after[j] == records[j];
      assert after[|records|].token == record.token;
  }

  /** When usable token strings are unique, revoking the record a lookup
      found leaves no usable record with that string. */
  lemma RevokeFoundClearsToken(records: seq<RefreshToken>, token: string)
    requires ActiveUnique(records)
    requires FirstActive(records, token).Some?
    ensures FirstActive(Revoked(records, FirstActive(records, token).value), token).None?
  {
    var i := FirstActive(records, token).value;
    var after := Revoked(records, i);
    forall j | 0 <= j < |after|
      ensures after[j].token != token || after[j].isRevoked
    {
      if j != i && !records[j].isRevoked {
        if j < i {
          assert records[j].token != token;
        } else {
          assert records[i].token != records[j].token;
        }
      }
    }
  }

  /** Saving a record whose token string is new keeps usable strings unique. */
  lemma SaveKeepsActiveUnique(records: seq<RefreshToken>, record: RefreshToken)
    requires ActiveUnique(records)
    requires Unused(records, record.token)
    ensures ActiveUnique(Saved(records, record))
  {
    var after := Saved(records, record);
    forall i, j | 0 <= i < j < |after| && !after[i].isRevoked && !after[j].isRevoked
      ensures after[i].token != after[j].token
    {
      assert after[i] == records[i];
      if j < |records| {
        assert after[j] == records[j];
      }
    }
  }

  /** Revoking never makes two usable records share a string. */
  lemma RevokeKeepsActiveUnique(records: seq<RefreshToken>, i: nat)
    requires i < |records|
    requires ActiveUnique(records)
    ensures ActiveUnique(Revoked(records, i))
  {
  }

  /** The refresh-token repository: a store of records in insertion order. */
  class RefreshTokenRepository {
    var records: seq<RefreshToken>

    ghost predicate Valid()
      reads this
    {
      TokenIdsAssigned(records)
    }

    constructor ()
      ensures Valid() && records == []
    {
      records := [];
    }

    /** Appends `record`; the store assigns its identifier. */
    method Save(record: RefreshToken)
      requires Valid()
      modifies this
      ensures Valid()
      ensures records == old(records) + [record.(id := |old(records)| + 1)]
    {
      records := Saved(records, record);
    }

    /** The first usable record carrying exactly `token`, as a handle into
        the store (the entity the caller may later revoke), or None when
        every record with that string is revoked or there is none. */
    method GetByToken(token: string) returns (found: Option<nat>)
      ensures found == FirstActive(records, token)
      ensures found.Some? ==> found.value < |records|
                              && records[found.value].token == token
                              && !records[found.value].isRevoked
      ensures found.None? ==> forall j :: 0 <= j < |records| && records[j].token == token
                                ==> records[j].isRevoked
    {
      found := FirstActive(records, token);
    }

    /** Marks the record at position `i` revoked, in place. */
    method Revoke(i: nat)
      requires Valid()
      requires i < |records|
      modifies this
      ensures Valid()
      ensures |records| == |old(records)|
      ensures records[i] == old(records[i]).(isRevoked := true)
      ensures forall j :: 0 <= j < |records| && j != i ==> records[j] == old(records[j])
      ensures old(records[i].isRevoked) ==> records == old(records)
      ensures FirstActive(records, records[i].token) != Some(i)
    {
      records := Revoked(records, i);
    }
  }
}
