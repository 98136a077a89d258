/** Client sessions that chain several handlers, each pairing an operation
    with the one that observes its effect. */
module Scenarios {
  import opened Wrappers
  import opened Records
  import opened Auth
  import opened Queries
  import opened Server

  /** A fresh account can log in at once, and its token carries the new
      `_id`, the username and the default role. */
  method RegisterThenLogin(s: Store, username: string, password: string, svc: Services)
    returns (token: Option<string>)
    requires s.Valid() && !HasUser(s.users, username)
    requires svc.hash(password).Some? && svc.compare(password, svc.hash(password).value)
    modifies s
    ensures s.Valid()
    ensures token == Some(svc.sign(Claims(old(s.nextId), username, UserRole)))
  {
    var registered := s.Register(username, password, svc);
    var n := |s.users| - 1;
    assert s.users[n].username == username;
    var reply;
    reply, token := s.Login(username, password, svc);
  }

  /** The token become-admin hands back, sent as `Bearer <token>`, opens the
      admin routes, provided the signing service round-trips its claims and
      never puts a space in a token. */
  method AdminTokenOpensAdminRoutes(s: Store, authorization: Option<string>, key: Option<string>, svc: Services)
    returns (reply: Reply, views: seq<UserView>)
    requires s.Valid()
    requires Authenticate(authorization, svc.verify).Success? && key == svc.adminKey
    requires HasUser(s.users, Authenticate(authorization, svc.verify).value.username)
    requires forall c :: svc.verify(svc.sign(c)) == Some(c)
    requires forall c :: svc.sign(c) != "" && ' ' !in svc.sign(c)
    modifies s
    ensures reply == Json(200, true)
    ensures |views| == |s.users|
    ensures exists v :: v in views && v.username == Authenticate(authorization, svc.verify).value.username
                        && v.role == AdminRole
  {
    var promoted, token := s.BecomeAdmin(authorization, key, svc);
    var t := token.value;
    assert svc.sign(svc.verify(t).value) == t;
    AuthenticateBearer("Bearer", t, "", svc.verify);
    assert "Bearer" + " " + t + "" == "Bearer " + t;
    reply, views := s.AdminUsers(Some("Bearer " + t), svc);
    var name := Authenticate(authorization, svc.verify).value.username;
    var i :| 0 <= i < |s.users| && s.users[i].username == name;
    assert views[i].username == name && views[i].role == AdminRole;
  }

  /** A successful delete leaves nothing for a second delete of the same id. */
  method DeleteTwice(s: Store, authorization: Option<string>, id: nat, svc: Services)
    returns (first: Reply, second: Reply)
    requires s.Valid()
    requires Authenticate(authorization, svc.verify).Success?
    requires FindLevel(s.levels, id).Some?
    requires MayDelete(Authenticate(authorization, svc.verify).value, s.levels[FindLevel(s.levels, id).value])
    modifies s
    ensures first == Json(200, true) && second == Json(404, false)
  {
    first := s.DeleteLevel(authorization, ObjectId(id), svc);
    second := s.DeleteLevel(authorization, ObjectId(id), svc);
  }

  /** Once an admin has deleted a user, that user can no longer log in and
      owns no level. */
  method DeletedUserIsGone(s: Store, authorization: Option<string>, target: string, password: string, svc: Services)
    returns (token: Option<string>)
    requires s.Valid()
    requires Authenticate(authorization, svc.verify).Success?
    requires Authenticate(authorization, svc.verify).value.role == AdminRole
    modifies s
    ensures token.None?
    ensures forall l :: l in s.levels ==> l.creator != target
  {
    var deleted := s.AdminDeleteUser(authorization, target, svc);
    var reply;
    reply, token := s.Login(target, password, svc);
    assert forall i :: 0 <= i < |s.users| ==> s.users[i] in s.users;
  }
}
