/** The user schema, its pre-save hook, statics and methods
    (src/features/users/Model.ts), over a collection of user records. */
module UserModel {
  import opened Common
  import opened Strings
  import opened Collection

  /** The cost factor the pre-save hook passes to bcrypt. */
  const SaltRounds: nat := 12

  /** bcrypt's `hash(plaintext, rounds)` and `compare(plaintext, digest)`, as
      uninterpreted functions; the random salt is folded into `hash`. */
  datatype Bcrypt = Bcrypt(hash: (string, nat) -> string, compare: (string, string) -> bool)

  /** What the model assumes of bcrypt: a digest matches exactly the plaintext
      it was made from, is never empty, and is never its own plaintext. */
  ghost predicate Sound(b: Bcrypt) {
    && (forall p, q, n :: b.compare(p, b.hash(q, n)) <==> p == q)
    && (forall p, n :: b.hash(p, n) != [] && b.hash(p, n) != p)
  }

  /** A stand-in for bcrypt that meets the assumption: a digest is the
      plaintext behind a fixed prefix. */
  function Tagged(): Bcrypt {
    Bcrypt((p: string, n: nat) => "$2b$" + p, (p: string, h: string) => h == "$2b$" + p)
  }

  lemma TaggedSound()
    ensures Sound(Tagged())
  {
    var b := Tagged();
    forall p, q, n: nat
      ensures b.compare(p, b.hash(q, n)) <==> p == q
    {
      if b.compare(p, b.hash(q, n)) {
        assert ("$2b$" + q)[4..] == q && ("$2b$" + p)[4..] == p;
      }
    }
    forall p, n: nat
      ensures b.hash(p, n) != [] && b.hash(p, n) != p
    {
      assert |b.hash(p, n)| == |p| + 4;
    }
  }

  /** A stored user. */
  datatype User = User(id: Id, username: string, password: string, createdAt: int)

  function UserId(u: User): Id { u.id }

  function Username(u: User): string { u.username }

  /** `default: Date.now()` is a call, made once when the schema is built: as
      written, every user gets the moment the module was loaded. */
  function DefaultCreatedAtAsWritten(loadedAt: int, now: int): int {
    loadedAt
  }

  /** `default: Date.now` (the function, called per document): the moment the
      user is created. */
  function DefaultCreatedAt(loadedAt: int, now: int): int {
    now
  }

  /** The pre-save hook as written: the password is hashed on every save,
      whether or not it changed. */
  function PreSaveAsWritten(password: string, modified: bool, b: Bcrypt): (r: string)
    ensures Sound(b) ==> r != password && forall q :: b.compare(q, r) <==> q == password
  {
    b.hash(password, SaltRounds)
  }

  /** The hook as evidently intended: hash only a password set since the last save. */
  function PreSave(password: string, modified: bool, b: Bcrypt): (r: string)
    ensures !modified ==> r == password
    ensures Sound(b) && modified ==> r != password && forall q :: b.compare(q, r) <==> q == password
  {
    if modified then b.hash(password, SaltRounds) else password
  }

  /** `validPassword(p)`: bcrypt's comparison of `p` with the stored digest. */
  function ValidPassword(u: User, p: string, b: Bcrypt): (r: bool)
    ensures Sound(b) && (exists q :: u.password == b.hash(q, SaltRounds)) ==>
              (r <==> u.password == b.hash(p, SaltRounds))
  {
    b.compare(p, u.password)
  }

  /** As written, saving a user a second time without touching the password
      hashes the digest again, and the user's own password no longer matches. */
  lemma ReSaveLocksOut(u: User, p: string, b: Bcrypt)
    requires Sound(b)
    ensures var once := u.(password := PreSaveAsWritten(p, true, b));
            var twice := once.(password := PreSaveAsWritten(once.password, false, b));
            ValidPassword(once, p, b) && !ValidPassword(twice, p, b)
  {
    var h := b.hash(p, SaltRounds);
    assert h != p;
    assert b.compare(p, b.hash(h, SaltRounds)) <==> p == h;
  }

  /** With the intended hook a re-save leaves the digest alone, and the
      password matches exactly as after the first save. */
  lemma ReSaveKeepsPassword(u: User, p: string, q: string, b: Bcrypt)
    requires Sound(b)
    ensures var once := u.(password := PreSave(p, true, b));
            var twice := once.(password := PreSave(once.password, false, b));
            twice == once && (ValidPassword(twice, q, b) <==> q == p)
  {
  }

  /** `findByUsername(name)`: the query value goes through the path's
      `trim`/`lowercase` setters, then the first user with that username. */
  function FindByUsername(users: seq<User>, name: string): (r: Option<User>)
    ensures r.Some? ==> r.value in users && r.value.username == Normalize(name)
    ensures r.None? <==> forall u :: u in users ==> u.username != Normalize(name)
  {
    match FindOne(users, (u: User) => u.username == Normalize(name))
    case None => None
    case Some(i) => Some(users[i])
  }

  /** With usernames unique and stored normalised, every user is found by
      their username, however it is spelled in case and surrounding blanks. */
  lemma FindsEveryUser(users: seq<User>, u: User, name: string)
    requires UniqueBy(users, Username) && u in users && Normal(u.username)
    requires Normalize(name) == u.username
    ensures FindByUsername(users, name) == Some(u)
  {
    var f := FindByUsername(users, name).value;
    var i :| 0 <= i < |users| && users[i] == u;
    var j :| 0 <= j < |users| && users[j] == f;
    assert Username(users[i]) == Username(users[j]);
  }

  /** The keys of a user's JSON form: its paths and the `id` virtual. */
  const UserKeys: set<string> := {"_id", "id", "username", "password", "createdAt"}

  /** `toJSON` with `removeProps(['password'])`: everything but the password. */
  lemma ToJsonHidesPassword()
    ensures RemoveProps(UserKeys, ["password"]) == UserKeys - {"password"}
    ensures "password" !in RemoveProps(UserKeys, ["password"])
  {
  }

  /** The record after a save: the user with the same id is replaced, or the
      user is added at the end. */
  function Upsert(users: seq<User>, u: User): (r: seq<User>)
    ensures u in r
    ensures forall v :: v in users && v.id != u.id ==> v in r
    ensures forall v :: v in r ==> v == u || v in users
  {
    match FindOne(users, (v: User) => v.id == u.id)
    case None => users + [u]
    case Some(i) =>
      assert users[i].id == u.id && users[i := u][i] == u;
      assert forall j :: 0 <= j < |users| && j != i ==> users[i := u][j] == users[j];
      users[i := u]
  }

  /** Why a save is refused: `required` on either path (an empty string counts
      as missing), then the unique index on `username` against another user. */
  function SaveError(users: seq<User>, u: User): (r: Option<StoreError>)
    ensures r == None <==> && u.username != [] && u.password != []
                           && forall v :: v in users && v.id != u.id ==> v.username != u.username
    ensures r.Some? && u.username != [] && u.password != [] ==> r == Some(DuplicateKey("username"))
  {
    if u.username == [] then Some(ValidationError("username"))
    else if u.password == [] then Some(ValidationError("password"))
    else if FindOne(users, (v: User) => v.username == u.username && v.id != u.id).Some? then
      Some(DuplicateKey("username"))
    else None
  }

  /** A user document: the `trim`/`lowercase` setters run on assignment;
      `passwordModified` records a password set since the last save. */
  class UserDocument {
    const id: Id
    var username: string
    var password: string
    const createdAt: int
    var passwordModified: bool

    ghost predicate Valid()
      reads this
    {
      Normal(username)
    }

    function Value(): (u: User)
      reads this
      ensures u.id == id && u.username == username && u.password == password
    {
      User(id, username, password, createdAt)
    }

    /** `new User({ username, password })`; a missing string is kept as empty,
        which `required` treats alike. */
    constructor (id: Id, username: Option<string>, password: Option<string>, createdAt: int)
      ensures Valid()
      ensures this.id == id && this.createdAt == createdAt && passwordModified
      ensures this.username == (if username.Some? then Normalize(username.value) else "")
      ensures this.password == (if password.Some? then Trim(password.value) else "")
    {
      this.id, this.createdAt := id, createdAt;
      if username.Some? {
        this.username := Normalize(username.value);
      } else {
        this.username := "";
      }
      if password.Some? {
        this.password := Trim(password.value);
      } else {
        this.password := "";
      }
      passwordModified := true;
    }

    /** `doc.password = p`. */
    method SetPassword(p: string)
      modifies this`password, this`passwordModified
      ensures password == Trim(p) && passwordModified
    {
      password := Trim(p);
      passwordModified := true;
    }
  }

  /** The users collection. */
  class UserStore {
    var users: seq<User>

    /** Ids and usernames are unique, and every username is stored normalised and non-empty. */
    ghost predicate Valid()
      reads this
    {
      && UniqueBy(users, UserId) && UniqueBy(users, Username)
      && forall u :: u in users ==> u.username != [] && Normal(u.username)
    }

    constructor ()
      ensures Valid() && users == []
    {
      users := [];
    }

    /** `save()` as written: validate, run the hook (hash the password), then
        write, which the unique index can refuse after the hook has already
        replaced the document's password. */
    method SaveAsWritten(doc: UserDocument, b: Bcrypt) returns (r: Option<StoreError>)
      requires Valid() && doc.Valid()
      modifies this`users, doc`password, doc`passwordModified
      ensures Valid() && doc.Valid() && doc.username == old(doc.username)
      ensures r == SaveError(old(users), old(doc.Value()))
      ensures old(doc.username) == [] || old(doc.password) == [] ==>
                users == old(users) && doc.password == old(doc.password)
      ensures old(doc.username) != [] && old(doc.password) != [] ==>
                doc.password == PreSaveAsWritten(old(doc.password), old(doc.passwordModified), b)
      ensures r.None? ==> users == Upsert(old(users), doc.Value()) && !doc.passwordModified
      ensures r.Some? ==> users == old(users)
    {
      r := SaveError(users, doc.Value());
      if doc.username == [] || doc.password == [] {
        return;
      }
      doc.password := PreSaveAsWritten(doc.password, doc.passwordModified, b);
      if r.None? {
        Write(doc.Value());
        doc.passwordModified := false;
      }
    }

    /** `save()` with the hook as evidently intended: a password not set since
        the last save is written as it is. */
    method Save(doc: UserDocument, b: Bcrypt) returns (r: Option<StoreError>)
      requires Valid() && doc.Valid()
      modifies this`users, doc`password, doc`passwordModified
      ensures Valid() && doc.Valid() && doc.username == old(doc.username)
      ensures r == SaveError(old(users), old(doc.Value()))
      ensures old(doc.username) == [] || old(doc.password) == [] ==>
                users == old(users) && doc.password == old(doc.password)
      ensures old(doc.username) != [] && old(doc.password) != [] ==>
                doc.password == PreSave(old(doc.password), old(doc.passwordModified), b)
      ensures r.None? ==> users == Upsert(old(users), doc.Value()) && !doc.passwordModified
      ensures r.Some? ==> users == old(users)
    {
      r := SaveError(users, doc.Value());
      if doc.username == [] || doc.password == [] {
        return;
      }
      doc.password := PreSave(doc.password, doc.passwordModified, b);
      if r.None? {
        Write(doc.Value());
        doc.passwordModified := false;
      }
    }

    /** The write of an accepted user, keeping ids and usernames unique. */
    method Write(u: User)
      requires Valid() && u.username != [] && Normal(u.username)
      requires forall v :: v in users && v.id != u.id ==> v.username != u.username
      modifies this`users
      ensures Valid() && users == Upsert(old(users), u)
    {
      UpsertUnique(users, u);
      users := Upsert(users, u);
    }
  }

  /** An accepted user replaces the one with its id: ids and usernames stay unique. */
  lemma UpsertUnique(users: seq<User>, u: User)
    requires UniqueBy(users, UserId) && UniqueBy(users, Username)
    requires forall v :: v in users && v.id != u.id ==> v.username != u.username
    ensures UniqueBy(Upsert(users, u), UserId) && UniqueBy(Upsert(users, u), Username)
  {
    var found := FindOne(users, (v: User) => v.id == u.id);
    if found.None? {
      AppendUnique(users, u, UserId);
      AppendUnique(users, u, Username);
    } else {
      var i := found.value;
      var r := users[i := u];
      forall j, k | 0 <= j < k < |r|
        ensures UserId(r[j]) != UserId(r[k]) && Username(r[j]) != Username(r[k])
      {
        if j != i && k != i {
          assert r[j] == users[j] && r[k] == users[k];
        } else if j == i {
          assert users[k] in users && users[k].id != u.id;
        } else {
          assert users[j] in users && users[j].id != u.id;
        }
      }
    }
  }

  /** Two new users saved one after the other, with fresh ids and distinct
      fresh usernames, are each found by their own username. */
  lemma SignUpsFound(users: seq<User>, u1: User, u2: User, name1: string, name2: string)
    requires UniqueBy(users, UserId) && UniqueBy(users, Username)
    requires u1.username == Normalize(name1) && u2.username == Normalize(name2)
    requires u1.id != u2.id && u1.username != u2.username
    requires forall v :: v in users ==> v.id != u1.id && v.id != u2.id && v.username != u1.username && v.username != u2.username
    ensures FindByUsername(Upsert(Upsert(users, u1), u2), name1) == Some(u1)
    ensures FindByUsername(Upsert(Upsert(users, u1), u2), name2) == Some(u2)
  {
    NormalizeIdempotent(name1);
    NormalizeIdempotent(name2);
    NormalIffFixedPoint(u1.username);
    NormalIffFixedPoint(u2.username);
    UpsertUnique(users, u1);
    var mid := Upsert(users, u1);
    UpsertUnique(mid, u2);
    var after := Upsert(mid, u2);
    assert u1 in mid && u1.id != u2.id;
    FindsEveryUser(after, u1, name1);
    FindsEveryUser(after, u2, name2);
  }

  /** As written, two users who sign up at different moments are stored with
      the same creation time: the moment the schema was built. */
  lemma CreatedAtFrozen(users: seq<User>, id1: Id, name1: string, h1: string, id2: Id, name2: string, h2: string,
                        loadedAt: int, now1: int, now2: int)
    requires UniqueBy(users, UserId) && UniqueBy(users, Username)
    requires id1 != id2 && Normalize(name1) != Normalize(name2)
    requires forall v :: v in users ==> && v.id != id1 && v.id != id2
                                        && v.username != Normalize(name1) && v.username != Normalize(name2)
    requires now1 < now2
    ensures var after := Upsert(Upsert(users, User(id1, Normalize(name1), h1, DefaultCreatedAtAsWritten(loadedAt, now1))),
                                User(id2, Normalize(name2), h2, DefaultCreatedAtAsWritten(loadedAt, now2)));
            && FindByUsername(after, name1).Some? && FindByUsername(after, name2).Some?
            && FindByUsername(after, name1).value.createdAt == loadedAt
            && FindByUsername(after, name2).value.createdAt == loadedAt
  {
    SignUpsFound(users, User(id1, Normalize(name1), h1, DefaultCreatedAtAsWritten(loadedAt, now1)),
                 User(id2, Normalize(name2), h2, DefaultCreatedAtAsWritten(loadedAt, now2)), name1, name2);
  }

  /** With the per-document default, the user who signs up later is stored
      with the later creation time, each the moment of their own sign-up. */
  lemma CreatedAtOrdered(users: seq<User>, id1: Id, name1: string, h1: string, id2: Id, name2: string, h2: string,
                         loadedAt: int, now1: int, now2: int)
    requires UniqueBy(users, UserId) && UniqueBy(users, Username)
    requires id1 != id2 && Normalize(name1) != Normalize(name2)
    requires forall v :: v in users ==> && v.id != id1 && v.id != id2
                                        && v.username != Normalize(name1) && v.username != Normalize(name2)
    requires now1 < now2
    ensures var after := Upsert(Upsert(users, User(id1, Normalize(name1), h1, DefaultCreatedAt(loadedAt, now1))),
                                User(id2, Normalize(name2), h2, DefaultCreatedAt(loadedAt, now2)));
            && FindByUsername(after, name1).Some? && FindByUsername(after, name2).Some?
            && FindByUsername(after, name1).value.createdAt == now1
            && FindByUsername(after, name2).value.createdAt == now2
            && FindByUsername(after, name1).value.createdAt < FindByUsername(after, name2).value.createdAt
  {
    SignUpsFound(users, User(id1, Normalize(name1), h1, DefaultCreatedAt(loadedAt, now1)),
                 User(id2, Normalize(name2), h2, DefaultCreatedAt(loadedAt, now2)), name1, name2);
  }

  /** Signing up: a new document's first save, with the hook as written or
      as intended. Either way it is accepted and stored with the password hashed. */
  method SignUp(store: UserStore, id: Id, name: string, p: string, b: Bcrypt, createdAt: int, asWritten: bool)
    returns (doc: UserDocument, first: Option<StoreError>)
    requires store.Valid() && Sound(b)
    requires forall v :: v in store.users ==> v.id != id && v.username != Normalize(name)
    requires Normalize(name) != [] && Trim(p) != []
    modifies store`users
    ensures fresh(doc) && doc.Valid() && store.Valid() && first.None? && !doc.passwordModified
    ensures doc.Value() == User(id, Normalize(name), b.hash(Trim(p), SaltRounds), createdAt)
    ensures doc.password != []
    ensures store.users == Upsert(old(store.users), doc.Value())
    ensures forall v :: v in store.users && v.id != id ==> v.username != doc.username
  {
    doc := new UserDocument(id, Some(name), Some(p), createdAt);
    assert doc.Value() == User(id, Normalize(name), Trim(p), createdAt);
    assert SaveError(store.users, doc.Value()) == None;
    if asWritten {
      first := store.SaveAsWritten(doc, b);
    } else {
      first := store.Save(doc, b);
    }
  }

  /** Signing up and then saving the same document again, as written: the
      password the user signed up with is refused from then on, and the
      creation time is the moment the schema was built. */
  method SignUpThenReSaveAsWritten(store: UserStore, id: Id, name: string, p: string, b: Bcrypt, loadedAt: int, now: int)
    returns (first: Option<StoreError>, second: Option<StoreError>)
    requires store.Valid() && Sound(b)
    requires forall v :: v in store.users ==> v.id != id && v.username != Normalize(name)
    requires Normalize(name) != [] && Trim(p) != []
    modifies store`users
    ensures first.None? && second.None?
    ensures FindByUsername(store.users, name).Some?
    ensures !ValidPassword(FindByUsername(store.users, name).value, Trim(p), b)
    ensures FindByUsername(store.users, name).value.createdAt == loadedAt
  {
    var doc;
    doc, first := SignUp(store, id, name, p, b, DefaultCreatedAtAsWritten(loadedAt, now), true);
    ghost var u1 := doc.Value();
    assert SaveError(store.users, u1) == None;
    second := store.SaveAsWritten(doc, b);
    ghost var u2 := doc.Value();
    assert u2 == u1.(password := b.hash(u1.password, SaltRounds));
    assert u2 in store.users;
    ReSaveLocksOut(u1, Trim(p), b);
    FindsEveryUser(store.users, u2, name);
  }

  /** Signing up and saving the same document again, with the intended hook
      and creation default: the user keeps the password signed up with, and
      the creation time is the moment of sign-up. */
  method SignUpThenReSave(store: UserStore, id: Id, name: string, p: string, b: Bcrypt, loadedAt: int, now: int)
    returns (first: Option<StoreError>, second: Option<StoreError>)
    requires store.Valid() && Sound(b)
    requires forall v :: v in store.users ==> v.id != id && v.username != Normalize(name)
    requires Normalize(name) != [] && Trim(p) != []
    modifies store`users
    ensures first.None? && second.None?
    ensures FindByUsername(store.users, name).Some?
    ensures ValidPassword(FindByUsername(store.users, name).value, Trim(p), b)
    ensures FindByUsername(store.users, name).value.createdAt == now
  {
    var doc;
    doc, first := SignUp(store, id, name, p, b, DefaultCreatedAt(loadedAt, now), false);
    ghost var u1 := doc.Value();
    assert SaveError(store.users, u1) == None;
    second := store.Save(doc, b);
    assert doc.Value() == u1;
    assert u1 in store.users;
    ReSaveKeepsPassword(u1, Trim(p), Trim(p), b);
    FindsEveryUser(store.users, u1, name);
  }

  /** Two sign-ups through the store, at `now1` and then `now2`: as written
      (hook and `Date.now()` default) both users are stored with the same
      creation time; as intended, with the ordered times of their sign-ups. */
  method SignUpTwoUsers(store: UserStore, id1: Id, name1: string, p1: string, id2: Id, name2: string, p2: string,
                        b: Bcrypt, loadedAt: int, now1: int, now2: int, asWritten: bool)
    returns (first: Option<StoreError>, second: Option<StoreError>)
    requires store.Valid() && Sound(b)
    requires id1 != id2 && Normalize(name1) != Normalize(name2)
    requires forall v :: v in store.users ==> && v.id != id1 && v.id != id2
                                              && v.username != Normalize(name1) && v.username != Normalize(name2)
    requires Normalize(name1) != [] && Trim(p1) != [] && Normalize(name2) != [] && Trim(p2) != []
    requires now1 < now2
    modifies store`users
    ensures first.None? && second.None?
    ensures FindByUsername(store.users, name1).Some? && FindByUsername(store.users, name2).Some?
    ensures asWritten ==> FindByUsername(store.users, name1).value.createdAt == FindByUsername(store.users, name2).value.createdAt
    ensures !asWritten ==> && FindByUsername(store.users, name1).value.createdAt == now1
                           && FindByUsername(store.users, name2).value.createdAt == now2
  {
    ghost var users0 := store.users;
    var c1 := if asWritten then DefaultCreatedAtAsWritten(loadedAt, now1) else DefaultCreatedAt(loadedAt, now1);
    var c2 := if asWritten then DefaultCreatedAtAsWritten(loadedAt, now2) else DefaultCreatedAt(loadedAt, now2);
    var doc1, doc2;
    doc1, first := SignUp(store, id1, name1, p1, b, c1, asWritten);
    ghost var u1 := doc1.Value();
    doc2, second := SignUp(store, id2, name2, p2, b, c2, asWritten);
    ghost var u2 := doc2.Value();
    SignUpsFound(users0, u1, u2, name1, name2);
  }
}
