/**
 * What the store service promises, proved about the functions of `Stores`:
 * mutations are refused to every non-STORE role before any lookup, admitted to
 * every STORE user whoever owns the store, keep store ids unique, and change
 * only the addressed store.
 */
module StoreProperties {
  import opened Common
  import opened Stores

  lemma FindStoreIndexAt(stores: seq<Store>, i: nat)
    requires (forall a, b :: 0 <= a < b < |stores| ==> stores[a].id != stores[b].id) && i < |stores|
    ensures FindStoreIndex(stores, stores[i].id) == Some(i)
  {
    var r := FindStoreIndex(stores, stores[i].id);
    assert r.Some?;
  }

  /** A user without the STORE authority can register, modify and delete nothing, whatever the store id. */
  lemma NonStoreRoleIsUnauthorized(t: StoreTable, id: int, req: StoreRequest, user: User)
    requires !HasStoreRole(user)
    ensures CreateStore(t, req, user) == Err(Unauthorized)
    ensures ModifyStore(t, id, req, user) == Err(Unauthorized)
    ensures DeleteStore(t, id, user) == Err(Unauthorized)
  {
  }

  /**
   * A STORE user registers exactly one new store owned by that user, under
   * the next id; the stores already there are unchanged.
   */
  lemma CreateStoreAddsOne(t: StoreTable, req: StoreRequest, user: User)
    requires Valid(t)
    requires HasStoreRole(user)
    ensures CreateStore(t, req, user).Ok?
    ensures var t' := CreateStore(t, req, user).value;
      && Valid(t')
      && |t'.stores| == |t.stores| + 1
      && t'.stores[..|t.stores|] == t.stores
      && t'.stores[|t.stores|] == Store(t.nextStoreId, user.id, req.info)
      && !HasStore(t.stores, t.nextStoreId)
  {
    var t' := CreateStore(t, req, user).value;
    assert forall i :: 0 <= i < |t.stores| ==> t'.stores[i] == t.stores[i];
  }

  /**
   * Modification and deletion check the role only: any STORE user succeeds on
   * any present store, including one that belongs to someone else.
   */
  lemma StoreRoleSufficesWithoutOwnership(t: StoreTable, id: int, req: StoreRequest, user: User, i: nat)
    requires HasStoreRole(user)
    requires i < |t.stores| && t.stores[i].id == id && t.stores[i].ownerId != user.id
    ensures ModifyStore(t, id, req, user).Ok?
    ensures DeleteStore(t, id, user).Ok?
  {
    assert HasStore(t.stores, id);
  }

  /** On an absent id, modification and deletion by a STORE user fail with IllegalArgument. */
  lemma MissingStoreIsIllegalArgument(t: StoreTable, id: int, req: StoreRequest, user: User)
    requires HasStoreRole(user)
    requires forall i :: 0 <= i < |t.stores| ==> t.stores[i].id != id
    ensures ModifyStore(t, id, req, user) == Err(IllegalArgument)
    ensures DeleteStore(t, id, user) == Err(IllegalArgument)
  {
    assert !HasStore(t.stores, id);
  }

  /** modifyStore replaces the descriptive columns of exactly the addressed store. */
  lemma ModifyStoreEffect(t: StoreTable, id: int, req: StoreRequest, user: User, i: nat)
    requires Valid(t)
    requires HasStoreRole(user)
    requires i < |t.stores| && t.stores[i].id == id
    ensures ModifyStore(t, id, req, user).Ok?
    ensures var t' := ModifyStore(t, id, req, user).value;
      && Valid(t')
      && t'.nextStoreId == t.nextStoreId
      && |t'.stores| == |t.stores|
      && t'.stores[i] == Store(id, t.stores[i].ownerId, req.info)
      && forall k :: 0 <= k < |t.stores| && k != i ==> t'.stores[k] == t.stores[k]
  {
    FindStoreIndexAt(t.stores, i);
  }

  /** Removing the row at `i` keeps exactly the other rows. */
  lemma RemoveStoreAt(t: StoreTable, i: nat)
    requires Valid(t) && i < |t.stores|
    ensures Valid(t.(stores := RemoveAt(t.stores, i)))
    ensures forall s :: s in RemoveAt(t.stores, i) <==> s in t.stores && s.id != t.stores[i].id
  {
    var rest := RemoveAt(t.stores, i);
    assert forall a :: 0 <= a < |rest| ==> rest[a] == t.stores[if a < i then a else a + 1];
    forall s ensures s in rest <==> s in t.stores && s.id != t.stores[i].id {
      if s in t.stores && s.id != t.stores[i].id {
        var a :| 0 <= a < |t.stores| && t.stores[a] == s;
        assert rest[if a < i then a else a - 1] == s;
      }
    }
  }

  /** deleteStore removes exactly the addressed store; every other store stays. */
  lemma DeleteStoreEffect(t: StoreTable, id: int, user: User, i: nat)
    requires Valid(t)
    requires HasStoreRole(user)
    requires i < |t.stores| && t.stores[i].id == id
    ensures DeleteStore(t, id, user).Ok?
    ensures var t' := DeleteStore(t, id, user).value;
      && Valid(t')
      && t'.stores == RemoveAt(t.stores, i)
      && forall s :: s in t'.stores <==> s in t.stores && s.id != id
  {
    FindStoreIndexAt(t.stores, i);
    RemoveStoreAt(t, i);
  }

  /** Every store mutation keeps store ids unique and below the next id. */
  lemma MutationsKeepValid(t: StoreTable, id: int, req: StoreRequest, user: User)
    requires Valid(t)
    ensures CreateStore(t, req, user).Ok? ==> Valid(CreateStore(t, req, user).value)
    ensures ModifyStore(t, id, req, user).Ok? ==> Valid(ModifyStore(t, id, req, user).value)
    ensures DeleteStore(t, id, user).Ok? ==> Valid(DeleteStore(t, id, user).value)
  {
    if CreateStore(t, req, user).Ok? {
      CreateStoreAddsOne(t, req, user);
    }
    if ModifyStore(t, id, req, user).Ok? {
      ModifyStoreEffect(t, id, req, user, FindStoreIndex(t.stores, id).value);
    }
    if DeleteStore(t, id, user).Ok? {
      DeleteStoreEffect(t, id, user, FindStoreIndex(t.stores, id).value);
    }
  }
}
