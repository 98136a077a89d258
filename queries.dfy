/** The database queries the handlers issue, over the in-memory collections:
    filters, first-match lookups, removals and the newest-first sort. */
module Queries {
  import opened Wrappers
  import opened Records

  /** `find(filter)`: the elements satisfying `p`, in stored order. */
  function Filter<T>(s: seq<T>, p: T -> bool): (r: seq<T>)
    ensures |r| <= |s|
    decreases |s|
  {
    if s == [] then [] else (if p(s[0]) then [s[0]] else []) + Filter(s[1..], p)
  }

  /** The filter keeps exactly the elements satisfying `p`. */
  lemma {:induction false} FilterMembers<T(!new)>(s: seq<T>, p: T -> bool)
    ensures forall x :: x in Filter(s, p) <==> x in s && p(x)
    decreases |s|
  {
    if s != [] {
      FilterMembers(s[1..], p);
      assert s == [s[0]] + s[1..];
    }
  }

  lemma {:induction false} FilterAppend<T(!new)>(a: seq<T>, b: seq<T>, p: T -> bool)
    ensures Filter(a + b, p) == Filter(a, p) + Filter(b, p)
    decreases |a|
  {
    if a != [] {
      FilterAppend(a[1..], b, p);
      assert (a + b)[0] == a[0];
      assert (a + b)[1..] == a[1..] + b;
      var head := if p(a[0]) then [a[0]] else [];
      calc {
        Filter(a + b, p);
        head + Filter(a[1..] + b, p);
        head + (Filter(a[1..], p) + Filter(b, p));
        (head + Filter(a[1..], p)) + Filter(b, p);
        Filter(a, p) + Filter(b, p);
      }
    } else {
      assert a + b == b;
    }
  }

  lemma {:induction false} FilterKeepsAll<T(!new)>(s: seq<T>, p: T -> bool)
    requires forall i :: 0 <= i < |s| ==> p(s[i])
    ensures Filter(s, p) == s
    decreases |s|
  {
    if s != [] {
      FilterKeepsAll(s[1..], p);
    }
  }

  /** `findOne(filter)`: the position of the first element satisfying `p`. */
  function FirstIndex<T>(s: seq<T>, p: T -> bool): (k: Option<nat>)
    ensures k.Some? ==> k.value < |s| && p(s[k.value]) && forall j :: 0 <= j < k.value ==> !p(s[j])
    ensures k.None? ==> forall j :: 0 <= j < |s| ==> !p(s[j])
    decreases |s|
  {
    if s == [] then None
    else if p(s[0]) then Some(0)
    else
      match FirstIndex(s[1..], p)
      case None => None
      case Some(k) => Some(k + 1)
  }

  // ----- users -----

  predicate HasUser(users: seq<User>, name: string)
  {
    exists i :: 0 <= i < |users| && users[i].username == name
  }

  /** No two users share a username: the store invariant that register's
      `findOne({ username })` check keeps. */
  predicate UniqueUsernames(users: seq<User>)
  {
    forall i, j :: 0 <= i < j < |users| ==> users[i].username != users[j].username
  }

  /** `User.findOne({ username })`. */
  function FindUser(users: seq<User>, name: string): Option<nat>
  {
    FirstIndex(users, (u: User) => u.username == name)
  }

  /** `User.deleteOne({ username })`: removes the first user with that name. */
  function RemoveUser(users: seq<User>, name: string): (r: seq<User>)
    ensures forall u :: u in r ==> u in users
    ensures forall u :: u in users && u.username != name ==> u in r
    ensures HasUser(users, name) ==> |r| == |users| - 1
    ensures !HasUser(users, name) ==> r == users
  {
    match FindUser(users, name)
    case None => users
    case Some(k) =>
      assert users == users[..k] + [users[k]] + users[k + 1..];
      users[..k] + users[k + 1..]
  }

  /** Under the unique index, removing a name leaves no user of that name and
      every other user, in order. */
  lemma RemoveUniqueUser(users: seq<User>, name: string)
    requires UniqueUsernames(users)
    ensures UniqueUsernames(RemoveUser(users, name))
    ensures forall u :: u in RemoveUser(users, name) <==> u in users && u.username != name
  {
    var r := RemoveUser(users, name);
    match FindUser(users, name)
    case None =>
    case Some(k) =>
      assert r == users[..k] + users[k + 1..];
      forall i | 0 <= i < |r| ensures r[i] == users[if i < k then i else i + 1] {
      }
      forall i, j | 0 <= i < j < |r| ensures r[i].username != r[j].username {
        assert r[i] == users[if i < k then i else i + 1];
        assert r[j] == users[if j < k then j else j + 1];
      }
      forall u | u in r ensures u.username != name {
        var i :| 0 <= i < |r| && r[i] == u;
        assert u == users[if i < k then i else i + 1];
      }
  }

  function Views(users: seq<User>): (views: seq<UserView>)
    ensures |views| == |users|
  {
    seq(|users|, i requires 0 <= i < |users| => UserView(users[i].id, users[i].username, users[i].role))
  }

  // ----- levels -----

  predicate UniqueIds(levels: seq<Level>)
  {
    forall i, j :: 0 <= i < j < |levels| ==> levels[i].id != levels[j].id
  }

  /** `Level.findById(id)`. */
  function FindLevel(levels: seq<Level>, id: nat): Option<nat>
  {
    FirstIndex(levels, (l: Level) => l.id == id)
  }

  /** `Level.find({ creator })`. */
  function LevelsBy(levels: seq<Level>, creator: string): (r: seq<Level>)
    ensures forall l :: l in r <==> l in levels && l.creator == creator
  {
    FilterMembers(levels, (l: Level) => l.creator == creator);
    Filter(levels, (l: Level) => l.creator == creator)
  }

  /** What `Level.deleteMany({ creator })` leaves. */
  function LevelsNotBy(levels: seq<Level>, creator: string): (r: seq<Level>)
    ensures forall l :: l in r <==> l in levels && l.creator != creator
  {
    FilterMembers(levels, (l: Level) => l.creator != creator);
    Filter(levels, (l: Level) => l.creator != creator)
  }

  /** What `Level.deleteOne({ _id: id })` leaves. */
  function LevelsExcept(levels: seq<Level>, id: nat): (r: seq<Level>)
    ensures forall l :: l in r <==> l in levels && l.id != id
  {
    FilterMembers(levels, (l: Level) => l.id != id);
    Filter(levels, (l: Level) => l.id != id)
  }

  /** Removing levels keeps the ids unique. */
  lemma LevelsNotByValid(levels: seq<Level>, creator: string)
    requires UniqueIds(levels)
    ensures UniqueIds(LevelsNotBy(levels, creator))
    ensures forall l :: l in LevelsNotBy(levels, creator) ==> l in levels
  {
    FilterUnique(levels, (l: Level) => l.creator != creator);
  }

  lemma {:induction false} FilterUnique(levels: seq<Level>, p: Level -> bool)
    requires UniqueIds(levels)
    ensures UniqueIds(Filter(levels, p))
    decreases |levels|
  {
    if levels != [] {
      FilterUnique(levels[1..], p);
      FilterMembers(levels[1..], p);
      var rest := Filter(levels[1..], p);
      forall j | 0 <= j < |rest| ensures rest[j].id != levels[0].id {
        assert rest[j] in levels[1..];
      }
    }
  }

  /** A filter that rejects only the element at position `k` removes exactly
      that element. */
  lemma {:induction false} FilterDropsOne<T(!new)>(s: seq<T>, k: nat, p: T -> bool)
    requires k < |s| && !p(s[k])
    requires forall i :: 0 <= i < |s| && i != k ==> p(s[i])
    ensures Filter(s, p) == s[..k] + s[k + 1..]
    decreases k
  {
    var tail := s[1..];
    if k == 0 {
      forall i | 0 <= i < |tail| ensures p(tail[i]) {
        assert tail[i] == s[i + 1];
      }
      FilterKeepsAll(tail, p);
    } else {
      forall i | 0 <= i < |tail| && i != k - 1 ensures p(tail[i]) {
        assert tail[i] == s[i + 1];
      }
      FilterDropsOne(tail, k - 1, p);
      assert s[..k] == [s[0]] + tail[..k - 1];
      assert s[k + 1..] == tail[k..];
    }
  }

  /** With unique ids, deleting by id removes exactly that one level and keeps
      every other level in its place. */
  lemma LevelsExceptUnique(levels: seq<Level>, k: nat)
    requires UniqueIds(levels) && k < |levels|
    ensures LevelsExcept(levels, levels[k].id) == levels[..k] + levels[k + 1..]
  {
    var id := levels[k].id;
    forall i | 0 <= i < |levels| && i != k ensures levels[i].id != id {
      if i < k {
        assert levels[i].id != levels[k].id;
      } else {
        assert levels[k].id != levels[i].id;
      }
    }
    FilterDropsOne(levels, k, (l: Level) => l.id != id);
  }

  /** The `$or` of the two case-insensitive `$regex` conditions of search. */
  function Matching(levels: seq<Level>, query: string, svc: Services): (r: seq<Level>)
    ensures forall l :: l in r <==> l in levels && (svc.regexMatch(query, l.title) || svc.regexMatch(query, l.creator))
  {
    FilterMembers(levels, (l: Level) => svc.regexMatch(query, l.title) || svc.regexMatch(query, l.creator));
    Filter(levels, (l: Level) => svc.regexMatch(query, l.title) || svc.regexMatch(query, l.creator))
  }

  /** Owner-or-admin: the creator, or an actor whose token says `admin`. */
  predicate MayDelete(actor: Claims, level: Level)
  {
    level.creator == actor.username || actor.role == AdminRole
  }

  // ----- sort({ createdAt: -1 }) -----

  predicate NewestFirst(levels: seq<Level>)
  {
    forall i, j :: 0 <= i < j < |levels| ==> levels[i].createdAt >= levels[j].createdAt
  }

  /** A level no older than the head of a newest-first list can go in front. */
  lemma NewestFirstCons(level: Level, levels: seq<Level>)
    requires NewestFirst(levels)
    requires levels == [] || levels[0].createdAt <= level.createdAt
    ensures NewestFirst([level] + levels)
  {
    var r := [level] + levels;
    forall i, j | 0 <= i < j < |r| ensures r[i].createdAt >= r[j].createdAt {
      if i == 0 {
        assert r[j] == levels[j - 1];
        assert levels[0].createdAt >= levels[j - 1].createdAt;
      } else {
        assert r[i] == levels[i - 1] && r[j] == levels[j - 1];
      }
    }
  }

  lemma NewestFirstTail(levels: seq<Level>)
    requires NewestFirst(levels) && levels != []
    ensures NewestFirst(levels[1..])
  {
    var t := levels[1..];
    forall i, j | 0 <= i < j < |t| ensures t[i].createdAt >= t[j].createdAt {
      assert t[i] == levels[i + 1] && t[j] == levels[j + 1];
    }
  }

  function InsertByDate(level: Level, levels: seq<Level>): (r: seq<Level>)
    requires NewestFirst(levels)
    ensures NewestFirst(r)
    ensures multiset(r) == multiset(levels) + multiset{level}
    ensures r[0] == level || (levels != [] && r[0] == levels[0])
    decreases |levels|
  {
    if levels == [] || levels[0].createdAt <= level.createdAt then
      NewestFirstCons(level, levels);
      [level] + levels
    else
      NewestFirstTail(levels);
      var rest := InsertByDate(level, levels[1..]);
      assert levels == [levels[0]] + levels[1..];
      assert rest[0].createdAt <= levels[0].createdAt by {
        if rest[0] != level {
          assert rest[0] == levels[1];
        }
      }
      NewestFirstCons(levels[0], rest);
      [levels[0]] + rest
  }

  /** The levels newest first; levels created at the same instant in no
      particular order. */
  function SortNewest(levels: seq<Level>): (r: seq<Level>)
    ensures NewestFirst(r)
    ensures multiset(r) == multiset(levels)
    decreases |levels|
  {
    if levels == [] then []
    else
      assert levels == [levels[0]] + levels[1..];
      InsertByDate(levels[0], SortNewest(levels[1..]))
  }
}
