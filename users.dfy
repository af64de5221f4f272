/**
 * getUserByEmail of helpers.js:2-8: a `for...in` scan over a user table that
 * returns the first user whose email equals the one asked for, and nothing
 * (`undefined`) when no user has it.
 */
module Users {

  import opened Wrappers

  datatype User = User(id: string, email: string, password: string)

  /**
   * A user table as a JavaScript object: `order` is the order in which
   * `for...in` enumerates its keys, `entries` maps each key to its user.
   */
  datatype UserDatabase = UserDatabase(order: seq<string>, entries: map<string, User>) {

    /** Each key is enumerated exactly once, and the enumerated keys are the table's keys. */
    predicate Valid()
    {
      && (forall i, j :: 0 <= i < j < |order| ==> order[i] != order[j])
      && (forall i :: 0 <= i < |order| ==> order[i] in entries)
      && (forall key :: key in entries ==> key in order)
    }
  }

  /** Reference definition: the first user along `order` whose email is `email`. */
  function FirstByEmail(order: seq<string>, entries: map<string, User>, email: string): Option<User>
    requires forall i :: 0 <= i < |order| ==> order[i] in entries
  {
    if order == [] then None
    else if entries[order[0]].email == email then Some(entries[order[0]])
    else FirstByEmail(order[1..], entries, email)
  }

  /**
   * The reference definition returns a user exactly when some key has that
   * email, and then the one at the first such position.
   */
  lemma {:induction false} FirstByEmailIsFirst(order: seq<string>, entries: map<string, User>, email: string)
    requires forall i :: 0 <= i < |order| ==> order[i] in entries
    ensures FirstByEmail(order, entries, email).None? <==>
              forall i :: 0 <= i < |order| ==> entries[order[i]].email != email
    ensures FirstByEmail(order, entries, email).Some? ==>
              exists i :: 0 <= i < |order| && FirstByEmail(order, entries, email) == Some(entries[order[i]])
                && entries[order[i]].email == email
                && forall j :: 0 <= j < i ==> entries[order[j]].email != email
  {
    if order != [] && entries[order[0]].email != email {
      var rest := order[1..];
      FirstByEmailIsFirst(rest, entries, email);
      if FirstByEmail(rest, entries, email).Some? {
        var i :| 0 <= i < |rest| && FirstByEmail(rest, entries, email) == Some(entries[rest[i]])
                 && entries[rest[i]].email == email
                 && forall j :: 0 <= j < i ==> entries[rest[j]].email != email;
        assert order[i + 1] == rest[i];
        assert forall j :: 1 <= j < i + 1 ==> order[j] == rest[j - 1];
      }
    }
  }

  /**
   * On a valid table: a returned user has the asked-for email and is one of
   * the table's users; nothing is returned exactly when no user has it.
   */
  lemma FirstByEmailSound(db: UserDatabase, email: string)
    requires db.Valid()
    ensures FirstByEmail(db.order, db.entries, email).Some? ==>
              FirstByEmail(db.order, db.entries, email).value.email == email
              && exists key :: key in db.entries && db.entries[key] == FirstByEmail(db.order, db.entries, email).value
    ensures FirstByEmail(db.order, db.entries, email).None? <==>
              forall key :: key in db.entries ==> db.entries[key].email != email
  {
    FirstByEmailIsFirst(db.order, db.entries, email);
    if FirstByEmail(db.order, db.entries, email).None? {
      forall key | key in db.entries
        ensures db.entries[key].email != email
      {
        var i :| 0 <= i < |db.order| && db.order[i] == key;
      }
    }
  }

  /**
   * When emails are unique across the table, the result does not depend
   * on the enumeration order: it is the one user with that email, if there
   * is one.
   */
  lemma UniqueEmailFindsThatUser(db: UserDatabase, key: string)
    requires db.Valid()
    requires key in db.entries
    requires forall k1, k2 :: k1 in db.entries && k2 in db.entries && db.entries[k1].email == db.entries[k2].email ==> k1 == k2
    ensures FirstByEmail(db.order, db.entries, db.entries[key].email) == Some(db.entries[key])
  {
    var email := db.entries[key].email;
    FirstByEmailSound(db, email);
    FirstByEmailIsFirst(db.order, db.entries, email);
    var i :| 0 <= i < |db.order| && FirstByEmail(db.order, db.entries, email) == Some(db.entries[db.order[i]])
             && db.entries[db.order[i]].email == email;
  }

  /**
   * getUserByEmail: scans the keys in enumeration order and returns the
   * first user whose email is `email`; falls through to None. The table is
   * a value, so the scan cannot change it.
   */
  method GetUserByEmail(email: string, db: UserDatabase) returns (user: Option<User>)
    requires db.Valid()
    ensures user == FirstByEmail(db.order, db.entries, email)
    ensures user.Some? ==> user.value.email == email
    ensures user.Some? ==> exists i :: 0 <= i < |db.order| && db.entries[db.order[i]] == user.value
                             && forall j :: 0 <= j < i ==> db.entries[db.order[j]].email != email
    ensures user.None? <==> forall key :: key in db.entries ==> db.entries[key].email != email
  {
    var i := 0;
    while i < |db.order|
      invariant 0 <= i <= |db.order|
      invariant forall j :: 0 <= j < i ==> db.entries[db.order[j]].email != email
      invariant FirstByEmail(db.order, db.entries, email) == FirstByEmail(db.order[i..], db.entries, email)
    {
      var key := db.order[i];
      if db.entries[key].email == email {
        user := Some(db.entries[key]);
        FirstByEmailSound(db, email);
        return;
      }
      assert db.order[i..][1..] == db.order[i + 1..];
      i := i + 1;
    }
    user := None;
    forall key | key in db.entries
      ensures db.entries[key].email != email
    {
      var k :| 0 <= k < |db.order| && db.order[k] == key;
    }
  }
}
