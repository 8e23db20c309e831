/**
 * The store service as an object over the store table. Its three mutations
 * check the caller's role, resolve the store, and write the table; each
 * contract ties the outcome to the function of the same name in `Stores`.
 * Lookups are the functions of `Stores` applied to `State()`.
 */
module StoreServices {
  import opened Common
  import Stores
  import StoreProperties

  /** A transactional call committed the table `spec` computes, or threw its error and changed nothing. */
  ghost predicate Committed(r: Result<()>, after: Stores.StoreTable, before: Stores.StoreTable, spec: Result<Stores.StoreTable>) {
    match spec
    case Ok(t) => r == Ok(()) && after == t
    case Err(e) => r == Err(e) && after == before
  }

  class StoreService {
    var stores: seq<Stores.Store>
    var nextStoreId: int
    /** The user table, read through findUser: each user id with its role authority. */
    const users: map<int, string>

    function State(): Stores.StoreTable
      reads this
    {
      Stores.StoreTable(stores, nextStoreId)
    }

    ghost predicate Valid()
      reads this
    {
      Stores.Valid(State())
    }

    constructor (users: map<int, string>)
      ensures Valid() && State() == Stores.StoreTable([], 1) && this.users == users
    {
      stores, nextStoreId := [], 1;
      this.users := users;
    }

    method CreateStore(req: Stores.StoreRequest, user: User) returns (r: Result<()>)
      requires Valid()
      modifies this
      ensures Valid()
      ensures Committed(r, State(), old(State()), Stores.CreateStore(old(State()), req, user))
    {
      if !Stores.HasStoreRole(user) {
        return Err(Unauthorized);
      }
      StoreProperties.CreateStoreAddsOne(State(), req, user);
      stores := stores + [Stores.Store(nextStoreId, user.id, req.info)];
      nextStoreId := nextStoreId + 1;
      return Ok(());
    }

    method ModifyStore(storeId: int, req: Stores.StoreRequest, user: User) returns (r: Result<()>)
      requires Valid()
      modifies this
      ensures Valid()
      ensures Committed(r, State(), old(State()), Stores.ModifyStore(old(State()), storeId, req, user))
    {
      if !Stores.HasStoreRole(user) {
        return Err(Unauthorized);
      }
      var found := Stores.FindStoreIndex(stores, storeId);
      if found.None? {
        return Err(IllegalArgument);
      }
      var i := found.value;
      StoreProperties.ModifyStoreEffect(State(), storeId, req, user, i);
      stores := stores[i := stores[i].(info := req.info)];
      return Ok(());
    }

    method DeleteStore(storeId: int, user: User) returns (r: Result<()>)
      requires Valid()
      modifies this
      ensures Valid()
      ensures Committed(r, State(), old(State()), Stores.DeleteStore(old(State()), storeId, user))
    {
      if !Stores.HasStoreRole(user) {
        return Err(Unauthorized);
      }
      var found := Stores.FindStoreIndex(stores, storeId);
      if found.None? {
        return Err(IllegalArgument);
      }
      StoreProperties.DeleteStoreEffect(State(), storeId, user, found.value);
      stores := RemoveAt(stores, found.value);
      return Ok(());
    }
  }
}
