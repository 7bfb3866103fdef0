/**
 * Properties that relate several requests: the credential and session
 * lifecycle (sign up, log in, pass the gate), the directory invariants each
 * handler keeps or breaks, and the consequences of non-unique ids.
 */
module Session {
  import opened Wrappers
  import opened Directory
  import opened Jwt
  import opened Routes
  import opened Http
  import Auth

  /** A user who has just signed up can log in with the same email and password. */
  lemma SignUpThenLogin(dir: Dir, body: Body, lib: Libraries, id: int)
    requires 10 <= id <= 99
    requires CompareAcceptsOwnHash(lib)
    requires SignUp(dir, body, lib, id).response.status == CREATED
    ensures var r := SignUp(dir, body, lib, id);
            var u := r.dir[|dir|];
            Login(r.dir, Body(None, body.email, body.password), lib).response
              == Response(OK, LoggedIn(u, lib.sign(LoginClaims(u)), LoginSuccessful))
  {
    var r := SignUp(dir, body, lib, id);
    var email := body.email.value;
    var k := IndexOfEmail(r.dir, email);
    assert r.dir[|dir|].email == email;
    assert forall j :: 0 <= j < |dir| ==> r.dir[j].email != email by {
      forall j | 0 <= j < |dir| ensures r.dir[j].email != email {
        assert r.dir[j] == r.dir[..|dir|][j];
      }
    }
    assert k == |dir|;
  }

  /**
   * A token from a successful login passes the gate, and the identity the
   * gate hands on has the user's id but no username: login signs `{id, email}`
   * while the gate reads `{id, username}`.
   */
  lemma LoginTokenPassesGate(dir: Dir, body: Body, lib: Libraries, verify: string -> Option<Claims>)
    requires VerifiesOwnTokens(lib.sign, verify)
    requires Login(dir, body, lib).response.status == OK
    ensures var p := Login(dir, body, lib).response.payload;
            p.LoggedIn?
            && Auth.Gate(Some("Bearer " + p.token), verify)
               == Auth.Admitted(Auth.ReqUser(Some(JNum(p.data.id)), None))
  {
    var p := Login(dir, body, lib).response.payload;
    var u := dir[IndexOfEmail(dir, body.email.value)];
    assert p == LoggedIn(u, lib.sign(LoginClaims(u)), LoginSuccessful);
    OwnTokenClaims(lib.sign, verify, LoginClaims(u));
    Auth.BearerTokenVerified(p.token, verify);
  }

  /** Signing up twice with one email: the second attempt is refused and the directory grows by one. */
  lemma DuplicateSignUpRefused(dir: Dir, first: Body, second: Body, lib: Libraries, id1: int, id2: int)
    requires 10 <= id1 <= 99 && 10 <= id2 <= 99
    requires SignUp(dir, first, lib, id1).response.status == CREATED
    requires second.email == first.email
    requires SignUpComplete(second) && lib.validEmail(second.email.value)
    ensures var r1 := SignUp(dir, first, lib, id1);
            var r2 := SignUp(r1.dir, second, lib, id2);
            r2.response == Response(BAD_REQUEST, Failure(EmailInUse)) && |r2.dir| == |dir| + 1
  {
    var r1 := SignUp(dir, first, lib, id1);
    assert r1.dir[|dir|].email == second.email.value;
  }

  /**
   * After a successful delete, looking the same id up again gives 404 exactly
   * when the id was carried by one record only: ids are drawn at random with
   * no collision check, and delete removes only the first match.
   */
  lemma DeleteThenGet(dir: Dir, id: int)
    requires exists j :: 0 <= j < |dir| && dir[j].id == id
    ensures var r := DeleteUser(dir, id);
            r.response.status == OK
            && (GetUser(r.dir, id).response.status == NOT_FOUND <==> CountId(dir, id) == 1)
  {
    DeleteRemovesOne(dir, id);
  }

  /** A successful delete removes exactly one record carrying the id and nothing else. */
  lemma DeleteRemovesOne(dir: Dir, id: int)
    requires exists j :: 0 <= j < |dir| && dir[j].id == id
    ensures var r := DeleteUser(dir, id);
            && multiset(r.dir) + multiset{dir[IndexOfId(dir, id)]} == multiset(dir)
            && CountId(r.dir, id) == CountId(dir, id) - 1
  {
    var k := IndexOfId(dir, id);
    var r := DeleteUser(dir, id);
    assert r.dir == RemoveAt(dir, k);
    assert dir == dir[..k] + ([dir[k]] + dir[k + 1..]);
    CountIdAppend(dir[..k], [dir[k]] + dir[k + 1..], id);
    CountIdAppend([dir[k]], dir[k + 1..], id);
    assert CountId([dir[k]], id) == 1 by {
      assert [dir[k]][1..] == [];
    }
    CountIdAppend(dir[..k], dir[k + 1..], id);
  }

  /** A concrete directory where deleting id 42 and reading id 42 again still finds a user. */
  lemma DeleteLeavesTwin()
    ensures var a := User(42, "Ann", "ann@example.com", "h1");
            var b := User(42, "Bob", "bob@example.com", "h2");
            var r := DeleteUser([a, b], 42);
            r.response.status == OK && GetUser(r.dir, 42).response == Response(OK, Profile(b))
  {
    var a := User(42, "Ann", "ann@example.com", "h1");
    var b := User(42, "Bob", "bob@example.com", "h2");
    assert IndexOfId([a, b], 42) == 0;
    var r := DeleteUser([a, b], 42);
    assert r.dir == [b];
    assert IndexOfId([b], 42) == 0;
  }

  /**
   * Right after a sign-up, its id is found, but the new record is what a
   * lookup returns only when no earlier record already had that id.
   */
  lemma SignUpThenGet(dir: Dir, body: Body, lib: Libraries, id: int)
    requires 10 <= id <= 99
    requires SignUp(dir, body, lib, id).response.status == CREATED
    ensures var r := SignUp(dir, body, lib, id);
            var g := GetUser(r.dir, id);
            g.response.status == OK
            && (g.response.payload == Profile(r.dir[|dir|]) <==> forall j :: 0 <= j < |dir| ==> dir[j].id != id)
  {
    var r := SignUp(dir, body, lib, id);
    assert forall j :: 0 <= j < |dir| ==> r.dir[j] == dir[j] by {
      forall j | 0 <= j < |dir| ensures r.dir[j] == dir[j] {
        assert r.dir[j] == r.dir[..|dir|][j];
      }
    }
    var k := IndexOfId(r.dir, id);
    if forall j :: 0 <= j < |dir| ==> dir[j].id != id {
      assert k == |dir|;
    } else {
      assert k < |dir|;
      assert r.dir[k] != r.dir[|dir|] by {
        assert r.dir[|dir|].email == body.email.value;
        assert r.dir[k] == dir[k];
      }
    }
  }

  /** Sign-up keeps emails unique: it refuses an email already present. */
  lemma SignUpKeepsEmailsUnique(dir: Dir, body: Body, lib: Libraries, id: int)
    requires 10 <= id <= 99
    requires UniqueEmails(dir)
    ensures UniqueEmails(SignUp(dir, body, lib, id).dir)
  {
    var r := SignUp(dir, body, lib, id);
    if r.response.status == CREATED {
      forall i, j | 0 <= i < j < |r.dir| ensures r.dir[i].email != r.dir[j].email {
        assert r.dir[i] == r.dir[..|dir|][i];
        if j < |dir| {
          assert r.dir[j] == r.dir[..|dir|][j];
        }
      }
    }
  }

  /** Updating an email does not check uniqueness: two users can end up sharing one. */
  lemma UpdateCanDuplicateEmail()
    ensures var dir := [User(10, "Ann", "ann@example.com", "h1"), User(11, "Bob", "bob@example.com", "h2")];
            UniqueEmails(dir)
            && !UniqueEmails(UpdateUser(dir, 11, Body(None, Some("ann@example.com"), None)).dir)
  {
    var dir := [User(10, "Ann", "ann@example.com", "h1"), User(11, "Bob", "bob@example.com", "h2")];
    assert IndexOfId(dir, 11) == 1;
    var r := UpdateUser(dir, 11, Body(None, Some("ann@example.com"), None));
    assert r.dir[0].email == r.dir[1].email;
  }

  /** Delete keeps emails unique. */
  lemma DeleteKeepsEmailsUnique(dir: Dir, id: int)
    requires UniqueEmails(dir)
    ensures UniqueEmails(DeleteUser(dir, id).dir)
  {
    var r := DeleteUser(dir, id);
    var k := IndexOfId(dir, id);
    if k != -1 {
      assert r.dir == RemoveAt(dir, k);
      forall i, j | 0 <= i < j < |r.dir| ensures r.dir[i].email != r.dir[j].email {
        var i' := if i < k then i else i + 1;
        var j' := if j < k then j else j + 1;
        assert r.dir[i] == dir[i'] && r.dir[j] == dir[j'];
      }
    }
  }

  /** Changing a password keeps emails unique. */
  lemma ChangePasswordKeepsEmailsUnique(dir: Dir, id: int, body: Body, lib: Libraries)
    requires UniqueEmails(dir)
    ensures UniqueEmails(ChangePassword(dir, id, body, lib).dir)
  {
    var r := ChangePassword(dir, id, body, lib);
    if r.response.status == CREATED {
      var k := IndexOfId(dir, id);
      assert forall i :: 0 <= i < |dir| ==> r.dir[i].email == dir[i].email;
    }
  }

  /** Sign-up keeps every id within [10, 99]: the new id is drawn from that range. */
  lemma SignUpKeepsIdsInRange(dir: Dir, body: Body, lib: Libraries, id: int)
    requires 10 <= id <= 99
    requires IdsInRange(dir)
    ensures IdsInRange(SignUp(dir, body, lib, id).dir)
  {
    var s := SignUp(dir, body, lib, id);
    if s.response.status == CREATED {
      forall i | 0 <= i < |s.dir| ensures 10 <= s.dir[i].id <= 99 {
        if i < |dir| { assert s.dir[i] == s.dir[..|dir|][i]; }
      }
    }
  }

  /** Delete keeps every id within [10, 99]. */
  lemma DeleteKeepsIdsInRange(dir: Dir, id: int)
    requires IdsInRange(dir)
    ensures IdsInRange(DeleteUser(dir, id).dir)
  {
    var k := IndexOfId(dir, id);
    if k != -1 {
      assert DeleteUser(dir, id).dir == RemoveAt(dir, k);
    }
  }

  /** Update and password change never alter an id, so every id stays within [10, 99]. */
  lemma EditsKeepIdsInRange(dir: Dir, id: int, body: Body, lib: Libraries)
    requires IdsInRange(dir)
    ensures IdsInRange(UpdateUser(dir, id, body).dir)
    ensures IdsInRange(ChangePassword(dir, id, body, lib).dir)
  {
  }

  /** Sending the same patch twice has the same effect on the directory as sending it once. */
  lemma UpdateIdempotent(dir: Dir, id: int, body: Body)
    ensures var once := UpdateUser(dir, id, body);
            UpdateUser(once.dir, id, body) == once
  {
    var once := UpdateUser(dir, id, body);
    if exists j :: 0 <= j < |dir| && dir[j].id == id {
      var k := IndexOfId(dir, id);
      assert forall j :: 0 <= j < |dir| ==> once.dir[j].id == dir[j].id;
      assert IndexOfId(once.dir, id) == k;
      assert Patch(Patch(dir[k], body), body) == Patch(dir[k], body);
      assert once.dir[k := Patch(once.dir[k], body)] == once.dir;
    }
  }

  /**
   * After a password change the user logs in with the new password (when
   * emails are unique, so that the login search lands on the same record).
   */
  lemma ChangePasswordThenLogin(dir: Dir, id: int, body: Body, lib: Libraries)
    requires CompareAcceptsOwnHash(lib)
    requires UniqueEmails(dir)
    requires ChangePassword(dir, id, body, lib).response.status == CREATED
    requires dir[IndexOfId(dir, id)].email != ""
    ensures var r := ChangePassword(dir, id, body, lib);
            var u := r.dir[IndexOfId(dir, id)];
            Login(r.dir, Body(None, Some(u.email), body.password), lib).response
              == Response(OK, LoggedIn(u, lib.sign(LoginClaims(u)), LoginSuccessful))
  {
    var r := ChangePassword(dir, id, body, lib);
    var k := IndexOfId(dir, id);
    var u := r.dir[k];
    assert forall i :: 0 <= i < |dir| ==> r.dir[i].email == dir[i].email;
    assert IndexOfEmail(r.dir, u.email) == k;
  }
}
