/** The in-memory user store of the first version of the server
    (src/.../user/storage/InMemoryUserStorage.java): a hash map from id to
    user and an id counter starting at 1. A user whose id is 0 has no id
    yet. The store keeps emails unique by scanning every stored user. */
module UserStorage {
  import opened Common
  import opened Entities

  /** No stored user has a null email. */
  predicate NoNullEmail(storage: map<int, User>)
  {
    forall k :: k in storage ==> storage[k].email.Some?
  }

  /** Some stored user has the (non-null) email. */
  predicate EmailTaken(storage: map<int, User>, email: Option<string>)
  {
    email.Some? && exists k :: k in storage && storage[k].email == email
  }

  /** A non-empty set of keys has an element to pick. */
  lemma NonEmptyHasElement(s: set<int>)
    requires s != {}
    ensures exists k :: k in s
  {
    if forall k :: k !in s {
      assert false;
    }
  }

  class UserStorage {
    var storage: map<int, User>
    var nextId: int

    /** Users are stored under their own id, and no two share an email. */
    ghost predicate Valid()
      reads this
    {
      (forall k :: k in storage ==> storage[k].id == k) && EmailsDistinct(storage)
    }

    constructor ()
      ensures Valid()
      ensures storage == map[] && nextId == 1
    {
      storage := map[];
      nextId := 1;
    }

    /** checkEmail(user): walks the stored users in the map's order; a stored
        null email throws a NullPointerException, a stored email equal to the
        user's is a Conflict. A null email of the user equals no stored one. */
    method CheckEmail(user: User) returns (r: Check)
      ensures r == Pass <==> NoNullEmail(storage) && !EmailTaken(storage, user.email)
      ensures NoNullEmail(storage) && EmailTaken(storage, user.email) ==> r == Fail(Conflict)
      ensures r == Fail(NullPointer) ==> !NoNullEmail(storage)
      ensures r == Fail(Conflict) ==> EmailTaken(storage, user.email)
      ensures r.Fail? ==> r.error == NullPointer || r.error == Conflict
    {
      var rest := storage.Keys;
      while rest != {}
        invariant rest <= storage.Keys
        invariant forall k :: k in storage && k !in rest ==>
                    storage[k].email.Some? && storage[k].email != user.email
        decreases |rest|
      {
        NonEmptyHasElement(rest);
        var k :| k in rest;
        var email := storage[k].email;
        if email.None? {
          return Fail(NullPointer);
        }
        if email == user.email {
          return Fail(Conflict);
        }
        rest := rest - {k};
      }
      r := Pass;
    }

    /** save(user): checks the email, gives a user without id the counter's
        value and advances it, and puts the user under its id, replacing any
        user already stored there. */
    method Save(user: User) returns (r: Result<User>)
      requires Valid()
      modifies this
      ensures Valid()
      ensures NoNullEmail(old(storage)) && EmailTaken(old(storage), user.email) ==> r == Err(Conflict)
      ensures r.Ok? <==> NoNullEmail(old(storage)) && !EmailTaken(old(storage), user.email)
      ensures r.Err? ==> (r.error == Conflict || r.error == NullPointer)
                         && storage == old(storage) && nextId == old(nextId)
      ensures r.Ok? && user.id == 0 ==> r.value == user.(id := old(nextId)) && nextId == old(nextId) + 1
      ensures r.Ok? && user.id != 0 ==> r.value == user && nextId == old(nextId)
      ensures r.Ok? ==> storage == old(storage)[r.value.id := r.value]
    {
      var check := CheckEmail(user);
      if check.Fail? {
        return Err(check.error);
      }
      var saved := user;
      if user.id == 0 {
        saved := user.(id := nextId);
        nextId := nextId + 1;
      }
      storage := storage[saved.id := saved];
      r := Ok(saved);
    }

    /** checkUser(id): NotFound unless a user is stored under the id. */
    function CheckUser(id: int): (r: Check)
      reads this
      ensures r == Pass <==> id in storage
      ensures r.Fail? ==> r.error == NotFound
    {
      if id in storage then Pass else Fail(NotFound)
    }

    /** getUser(id). */
    function GetUser(id: int): (r: Result<User>)
      reads this
      ensures r.Err? <==> id !in storage
      ensures r.Err? ==> r.error == NotFound
      ensures r.Ok? ==> r.value == storage[id]
    {
      if CheckUser(id).Fail? then Err(NotFound) else Ok(storage[id])
    }

    /** deleteUser(id): NotFound if absent; otherwise the removed user. */
    method DeleteUser(id: int) returns (r: Result<User>)
      requires Valid()
      modifies this`storage
      ensures Valid()
      ensures r == old(GetUser(id))
      ensures r.Ok? ==> storage == old(storage) - {id} && id !in storage
      ensures r.Err? ==> storage == old(storage)
    {
      r := GetUser(id);
      if r.Ok? {
        storage := storage - {id};
      }
    }

    /** updateUser(patch, id): the email check runs first, so a conflict wins
        over a missing id; then the stored user gets the patch's non-null
        email and name. */
    method UpdateUser(patch: User, id: int) returns (r: Result<User>)
      requires Valid()
      modifies this`storage
      ensures Valid()
      ensures NoNullEmail(old(storage)) && EmailTaken(old(storage), patch.email) ==> r == Err(Conflict)
      ensures NoNullEmail(old(storage)) && !EmailTaken(old(storage), patch.email) && id !in old(storage) ==>
                r == Err(NotFound)
      ensures r.Ok? <==> NoNullEmail(old(storage)) && !EmailTaken(old(storage), patch.email) && id in old(storage)
      ensures patch.email.None? ==> r != Err(Conflict)
      ensures r.Ok? ==> var u := old(storage)[id];
                        r.value.id == u.id &&
                        r.value.email == (if patch.email.Some? then patch.email else u.email) &&
                        r.value.name == (if patch.name.Some? then patch.name else u.name) &&
                        storage == old(storage)[id := r.value]
      ensures r.Err? ==> storage == old(storage)
    {
      var check := CheckEmail(patch);
      if check.Fail? {
        return Err(check.error);
      }
      if CheckUser(id).Fail? {
        return Err(NotFound);
      }
      var user := storage[id];
      if patch.email.Some? {
        user := user.(email := patch.email);
      }
      if patch.name.Some? {
        user := user.(name := patch.name);
      }
      storage := storage[id := user];
      r := Ok(user);
    }
  }
}
