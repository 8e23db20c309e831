/**
 * The business rules of the store service, as functions over the store
 * table. Lookups are plain functions of the table; create, modify and delete
 * are transactional and yield either the table after commit or the error
 * they threw. Mutations are gated on the caller's role authority alone.
 */
module Stores {
  import opened Common

  /** The descriptive columns of a store, which a modification replaces as a whole. */
  datatype StoreInfo = StoreInfo(name: string, description: string)

  datatype Store = Store(id: int, ownerId: int, info: StoreInfo)

  /** The body of a store registration or modification request. */
  datatype StoreRequest = StoreRequest(info: StoreInfo)

  /** The store table; `nextStoreId` is the identifier the next stored store gets. */
  datatype StoreTable = StoreTable(stores: seq<Store>, nextStoreId: int)

  /** The authority string that admits a user to register, modify and delete stores. */
  const StoreAuthority: string := "STORE"

  predicate HasStoreRole(user: User) {
    user.authority == StoreAuthority
  }

  ghost predicate HasStore(stores: seq<Store>, id: int) {
    exists i :: 0 <= i < |stores| && stores[i].id == id
  }

  ghost predicate Valid(t: StoreTable) {
    && (forall i, j :: 0 <= i < j < |t.stores| ==> t.stores[i].id != t.stores[j].id)
    && (forall i :: 0 <= i < |t.stores| ==> t.stores[i].id < t.nextStoreId)
  }

  /** storeRepository.findById: the position of the store with this id. */
  function FindStoreIndex(stores: seq<Store>, id: int): (r: Option<nat>)
    ensures r.Some? ==> r.value < |stores| && stores[r.value].id == id
    ensures r.None? <==> !HasStore(stores, id)
  {
    FirstIndex(stores, (s: Store) => s.id == id)
  }

  /** findStore: the store with this id; IllegalArgument when there is none. */
  function FindStore(stores: seq<Store>, id: int): (r: Result<Store>)
    ensures r.Ok? <==> HasStore(stores, id)
    ensures r.Err? ==> r.error == IllegalArgument
    ensures r.Ok? ==> r.value.id == id && r.value in stores
  {
    match FindStoreIndex(stores, id)
    case None => Err(IllegalArgument)
    case Some(i) => Ok(stores[i])
  }

  /** findUser: the user with this id; IllegalArgument when there is none. */
  function FindUser(users: map<int, string>, id: int): (r: Result<User>)
    ensures r.Ok? <==> id in users
    ensures r.Err? ==> r.error == IllegalArgument
    ensures r.Ok? ==> r.value.id == id && r.value.authority == users[id]
  {
    if id in users then Ok(User(id, users[id])) else Err(IllegalArgument)
  }

  /** selectStores: the whole table, in table order, unfiltered. */
  function SelectStores(t: StoreTable): (r: seq<Store>)
    ensures |r| == |t.stores|
    ensures forall s :: s in r <==> s in t.stores
  {
    t.stores
  }

  /** selectStore: the store with this id; IllegalArgument when there is none. */
  function SelectStore(t: StoreTable, id: int): (r: Result<Store>)
    ensures r.Ok? <==> HasStore(t.stores, id)
    ensures r.Err? ==> r.error == IllegalArgument
    ensures r.Ok? ==> r.value.id == id && r.value in t.stores
  {
    FindStore(t.stores, id)
  }

  /**
   * selectMyStore: the store owned by the (re-read) user, or nothing; when the
   * user owns several, the first in table order.
   */
  function SelectMyStore(t: StoreTable, users: map<int, string>, user: User): (r: Result<Option<Store>>)
    ensures r.Err? <==> user.id !in users
    ensures r.Err? ==> r.error == IllegalArgument
    ensures r.Ok? && r.value.Some? ==> r.value.value in t.stores && r.value.value.ownerId == user.id
    ensures r.Ok? && r.value.None? ==> forall i :: 0 <= i < |t.stores| ==> t.stores[i].ownerId != user.id
  {
    match FindUser(users, user.id)
    case Err(e) => Err(e)
    case Ok(storeUser) =>
      match FirstIndex(t.stores, (s: Store) => s.ownerId == storeUser.id)
      case None => Ok(None)
      case Some(i) => Ok(Some(t.stores[i]))
  }

  /** createStore: a STORE user registers a new store owned by that user. */
  function CreateStore(t: StoreTable, req: StoreRequest, user: User): (r: Result<StoreTable>)
    ensures r.Err? <==> !HasStoreRole(user)
    ensures r.Err? ==> r.error == Unauthorized
    ensures r.Ok? ==> |r.value.stores| == |t.stores| + 1 && r.value.stores[..|t.stores|] == t.stores
  {
    if !HasStoreRole(user) then Err(Unauthorized)
    else Ok(StoreTable(t.stores + [Store(t.nextStoreId, user.id, req.info)], t.nextStoreId + 1))
  }

  /** modifyStore: a STORE user replaces the descriptive columns of a store, whoever owns it. */
  function ModifyStore(t: StoreTable, id: int, req: StoreRequest, user: User): (r: Result<StoreTable>)
    ensures !HasStoreRole(user) ==> r == Err(Unauthorized)
    ensures HasStoreRole(user) ==> (r.Ok? <==> HasStore(t.stores, id))
    ensures r.Err? ==> r.error == Unauthorized || r.error == IllegalArgument
    ensures r.Ok? ==> |r.value.stores| == |t.stores| && r.value.nextStoreId == t.nextStoreId
  {
    if !HasStoreRole(user) then Err(Unauthorized)
    else match FindStoreIndex(t.stores, id)
      case None => Err(IllegalArgument)
      case Some(i) => Ok(t.(stores := t.stores[i := t.stores[i].(info := req.info)]))
  }

  /** deleteStore: a STORE user deletes a store, whoever owns it. */
  function DeleteStore(t: StoreTable, id: int, user: User): (r: Result<StoreTable>)
    ensures !HasStoreRole(user) ==> r == Err(Unauthorized)
    ensures HasStoreRole(user) ==> (r.Ok? <==> HasStore(t.stores, id))
    ensures r.Err? ==> r.error == Unauthorized || r.error == IllegalArgument
    ensures r.Ok? ==> |r.value.stores| == |t.stores| - 1 && r.value.nextStoreId == t.nextStoreId
  {
    if !HasStoreRole(user) then Err(Unauthorized)
    else match FindStoreIndex(t.stores, id)
      case None => Err(IllegalArgument)
      case Some(i) => Ok(t.(stores := RemoveAt(t.stores, i)))
  }
}
