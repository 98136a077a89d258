/** The request handlers of the API router, over an in-memory store that
    stands for the two database collections, with the calls made to the
    media service recorded in the order they are issued. */
module Server {
  import opened Wrappers
  import opened Records
  import opened Auth
  import opened Blobs
  import opened Queries

  /** The `.limit(20)` of search. */
  const SearchLimit: nat := 20

  /** `level` is the record publish saves for that request: the token's
      username as creator, the JSON URL and one image URL per sent image,
      in slot order, as the media service returned them. */
  predicate IsPublished(level: Level, id: nat, creator: string, title: string, description: string,
                        json: Bytes, images: seq<Bytes>, now: nat, svc: Services)
  {
    && level.id == id && level.creator == creator
    && level.title == title && level.description == description
    && svc.upload(json, Raw) == Some(level.jsonUrl)
    && |level.images| == |images|
    && (forall k :: 0 <= k < |images| ==> svc.upload(images[k], Auto) == Some(level.images[k]))
    && level.createdAt == now
  }

  class Store {
    var users: seq<User>
    var levels: seq<Level>
    /** The next `_id` the database hands out. */
    var nextId: nat
    /** Every call issued to the media service, oldest first. */
    var blobLog: seq<BlobCall>
    /** Every delete issued to the database, oldest first. */
    var deletions: seq<Deletion>

    ghost predicate Valid()
      reads this`users, this`levels, this`nextId
    {
      && UniqueUsernames(users)
      && UniqueIds(levels)
      && (forall i :: 0 <= i < |users| ==> users[i].id < nextId)
      && (forall i :: 0 <= i < |levels| ==> levels[i].id < nextId)
    }

    constructor ()
      ensures Valid()
      ensures users == [] && levels == [] && nextId == 0 && blobLog == [] && deletions == []
    {
      users, levels, nextId, blobLog, deletions := [], [], 0, [], [];
    }

    /** `uploadToCloudinary(buffer, kind)`. */
    method CloudinaryUpload(file: Bytes, kind: ResourceType, svc: Services) returns (url: Option<string>)
      modifies this`blobLog
      ensures blobLog == old(blobLog) + [Upload(file, kind)]
      ensures url == svc.upload(file, kind)
    {
      blobLog := blobLog + [Upload(file, kind)];
      url := svc.upload(file, kind);
    }

    /** `cloudinary.v2.uploader.destroy(publicId, { resource_type: kind })`. */
    method CloudinaryDestroy(publicId: string, kind: ResourceType, svc: Services) returns (ok: bool)
      modifies this`blobLog
      ensures blobLog == old(blobLog) + [Destroy(publicId, kind)]
      ensures ok == svc.destroy(publicId, kind)
    {
      blobLog := blobLog + [Destroy(publicId, kind)];
      ok := svc.destroy(publicId, kind);
    }

    /** The image loop of `deleteCloudinaryFiles`: destroys each image in
        order and stops at the first destroy that rejects; `ok` says whether
        the loop ran to the end. */
    method DestroyImages(images: seq<string>, svc: Services) returns (ok: bool)
      modifies this`blobLog
      ensures blobLog == old(blobLog) + Attempted(ImageDestroys(images), svc)
      ensures ok == AllSucceed(ImageDestroys(images), svc)
    {
      ghost var plan := ImageDestroys(images);
      var i := 0;
      while i < |images|
        invariant 0 <= i <= |images|
        invariant blobLog == old(blobLog) + plan[..i]
        invariant forall j :: 0 <= j < i ==> Succeeds(plan[j], svc)
      {
        ok := CloudinaryDestroy(PublicId(images[i]), Image, svc);
        IssueNext(old(blobLog), plan, i);
        if !ok {
          assert !Succeeds(plan[i], svc);
          AttemptedStopsAt(plan, i, svc);
          return;
        }
        i := i + 1;
      }
      assert plan[..i] == plan;
      AttemptedPrefix(plan, svc);
      ok := true;
    }

    /** `deleteCloudinaryFiles(level)`: the images first, then the JSON blob
        as `raw`, all in one try block whose error is only logged, so nothing
        is reported back to the handler. */
    method DeleteCloudinaryFiles(level: Level, svc: Services)
      modifies this`blobLog
      ensures blobLog == old(blobLog) + Attempted(CleanupPlan(level), svc)
    {
      CleanupStages(level, svc);
      var ok := DestroyImages(level.images, svc);
      if ok && level.jsonUrl != "" {
        var _ := CloudinaryDestroy(PublicId(level.jsonUrl), Raw, svc);
      }
    }

    /** POST /register. */
    method Register(username: string, password: string, svc: Services) returns (reply: Reply)
      requires Valid()
      modifies this
      ensures Valid()
      ensures levels == old(levels) && blobLog == old(blobLog) && deletions == old(deletions)
      ensures HasUser(old(users), username) ==>
        reply == Json(200, false) && users == old(users) && nextId == old(nextId)
      ensures !HasUser(old(users), username) && svc.hash(password).None? ==>
        reply == Json(500, false) && users == old(users) && nextId == old(nextId)
      ensures !HasUser(old(users), username) && svc.hash(password).Some? ==>
        && reply == Json(200, true)
        && users == old(users) + [User(old(nextId), username, svc.hash(password).value, UserRole)]
        && nextId == old(nextId) + 1
    {
      if FindUser(users, username).Some? {
        reply := Json(200, false);
        return;
      }
      var hashed := svc.hash(password);
      if hashed.None? {
        reply := Json(500, false);
        return;
      }
      users := users + [User(nextId, username, hashed.value, UserRole)];
      nextId := nextId + 1;
      reply := Json(200, true);
    }

    /** POST /login: a token for the stored user, signed with the stored role. */
    method Login(username: string, password: string, svc: Services) returns (reply: Reply, token: Option<string>)
      requires Valid()
      ensures reply == Json(200, token.Some?)
      ensures token.Some? <==>
        exists i :: 0 <= i < |users| && users[i].username == username && svc.compare(password, users[i].passwordHash)
      ensures forall i :: 0 <= i < |users| && users[i].username == username && token.Some? ==>
        token.value == svc.sign(Claims(users[i].id, username, users[i].role))
    {
      var k := FindUser(users, username);
      if k.None? || !svc.compare(password, users[k.value].passwordHash) {
        reply, token := Json(200, false), None;
        return;
      }
      var user := users[k.value];
      token := Some(svc.sign(Claims(user.id, user.username, user.role)));
      reply := Json(200, true);
    }

    /** POST /become-admin. */
    method BecomeAdmin(authorization: Option<string>, key: Option<string>, svc: Services)
      returns (reply: Reply, token: Option<string>)
      requires Valid()
      modifies this
      ensures Valid()
      ensures levels == old(levels) && blobLog == old(blobLog) && nextId == old(nextId) && deletions == old(deletions)
      ensures Authenticate(authorization, svc.verify).Failure? ==>
        reply == Json(401, false) && token.None? && users == old(users)
      ensures Authenticate(authorization, svc.verify).Success? && key != svc.adminKey ==>
        reply == Json(403, false) && token.None? && users == old(users)
      ensures Authenticate(authorization, svc.verify).Success? && key == svc.adminKey ==>
        var actor := Authenticate(authorization, svc.verify).value;
        && (!HasUser(old(users), actor.username) ==> reply == Unhandled && token.None? && users == old(users))
        && (HasUser(old(users), actor.username) ==>
              && reply == Json(200, true)
              && |users| == |old(users)|
              && (forall i :: 0 <= i < |users| ==>
                    users[i] == if old(users)[i].username == actor.username
                                then old(users)[i].(role := AdminRole) else old(users)[i])
              && (exists i :: 0 <= i < |users| && users[i].username == actor.username
                    && token == Some(svc.sign(Claims(users[i].id, actor.username, AdminRole)))))
    {
      token := None;
      var auth := Authenticate(authorization, svc.verify);
      if auth.Failure? {
        reply := Json(401, false);
        return;
      }
      if key != svc.adminKey {
        reply := Json(403, false);
        return;
      }
      var k := FindUser(users, auth.value.username);
      if k.None? {
        // `user._id` on a null result throws outside any try block
        reply := Unhandled;
        return;
      }
      var user := users[k.value].(role := AdminRole);
      users := users[k.value := user];
      token := Some(svc.sign(Claims(user.id, user.username, AdminRole)));
      reply := Json(200, true);
    }

    /** `new Level({...}).save()` with the next `_id`. */
    method SaveLevel(level: Level)
      requires Valid() && level.id == nextId
      modifies this`levels, this`nextId
      ensures Valid()
      ensures levels == old(levels) + [level] && nextId == old(nextId) + 1
    {
      levels := levels + [level];
      nextId := nextId + 1;
    }

    /** `if (req.files[slot]) images.push(await uploadToCloudinary(buffer))`;
        `ok` is false when the upload rejected, which ends the try block. */
    method PushImage(slot: Option<Bytes>, images: seq<string>, ghost u: Uploads, svc: Services)
      returns (ok: bool, images': seq<string>)
      requires u.ok && images == u.images
      modifies this`blobLog
      ensures blobLog == old(blobLog) + UploadSlot(slot, u, svc).calls[|u.calls|..]
      ensures ok == UploadSlot(slot, u, svc).ok && images' == UploadSlot(slot, u, svc).images
    {
      ok, images' := true, images;
      if slot.Some? {
        var url := CloudinaryUpload(slot.value, Auto, svc);
        if url.None? {
          ok := false;
        } else {
          images' := images + [url.value];
        }
      }
    }

    /** The uploads of publish's try block: the JSON file as `raw`, then the
        images slot by slot, stopping at the first upload that rejects. */
    method UploadFiles(json: Bytes, image1: Option<Bytes>, image2: Option<Bytes>, image3: Option<Bytes>, svc: Services)
      returns (ok: bool, jsonUrl: string, images: seq<string>)
      modifies this`blobLog
      ensures var u := PublishUploads(json, image1, image2, image3, svc);
        && blobLog == old(blobLog) + u.calls
        && ok == u.ok
        && (ok ==> jsonUrl == u.jsonUrl && images == u.images)
    {
      ghost var u := UploadJson(json, svc);
      images := [];
      var url := CloudinaryUpload(json, Raw, svc);
      if url.None? {
        ok, jsonUrl := false, "";
        return;
      }
      jsonUrl := url.value;
      ok, images := PushImage(image1, images, u, svc);
      u := UploadSlot(image1, u, svc);
      if !ok { return; }
      ok, images := PushImage(image2, images, u, svc);
      u := UploadSlot(image2, u, svc);
      if !ok { return; }
      ok, images := PushImage(image3, images, u, svc);
    }

    /** POST /publish: uploads the JSON file, then each sent image in slot
        order, and saves the level only when every upload succeeded. */
    method Publish(authorization: Option<string>, title: string, description: string,
                   jsonFile: Option<Bytes>, image1: Option<Bytes>, image2: Option<Bytes>, image3: Option<Bytes>,
                   now: nat, svc: Services)
      returns (reply: Reply, id: Option<nat>)
      requires Valid()
      modifies this
      ensures Valid()
      ensures users == old(users) && deletions == old(deletions)
      ensures Authenticate(authorization, svc.verify).Failure? ==>
        && reply == Json(401, false) && id.None?
        && levels == old(levels) && nextId == old(nextId) && blobLog == old(blobLog)
      ensures Authenticate(authorization, svc.verify).Success? && jsonFile.None? ==>
        && reply == Json(500, false) && id.None?
        && levels == old(levels) && nextId == old(nextId) && blobLog == old(blobLog)
      ensures Authenticate(authorization, svc.verify).Success? && jsonFile.Some? ==>
        var images := PresentImages(image1, image2, image3);
        var plan := UploadPlan(jsonFile.value, images);
        && blobLog == old(blobLog) + Attempted(plan, svc)
        && (!AllSucceed(plan, svc) ==>
              reply == Json(500, false) && id.None? && levels == old(levels) && nextId == old(nextId))
        && (AllSucceed(plan, svc) ==>
              && reply == Json(200, true) && id == Some(old(nextId)) && nextId == old(nextId) + 1
              && |levels| == |old(levels)| + 1 && levels[..|old(levels)|] == old(levels)
              && IsPublished(levels[|old(levels)|], old(nextId), Authenticate(authorization, svc.verify).value.username,
                             title, description, jsonFile.value, images, now, svc))
    {
      id := None;
      var auth := Authenticate(authorization, svc.verify);
      if auth.Failure? {
        reply := Json(401, false);
        return;
      }
      if jsonFile.None? {
        // `req.files["jsonFile"][0]` throws inside the try block
        reply := Json(500, false);
        return;
      }
      var ok, jsonUrl, images := UploadFiles(jsonFile.value, image1, image2, image3, svc);
      PublishUploadsAttempted(jsonFile.value, image1, image2, image3, svc);
      if !ok {
        reply := Json(500, false);
        return;
      }
      var level := Level(nextId, auth.value.username, title, description, images, jsonUrl, now);
      SaveLevel(level);
      id := Some(level.id);
      reply := Json(200, true);
    }

    /** GET /levels: every level, or those whose creator is exactly the
        `creator` query when it is non-empty, newest first. */
    method ListLevels(creator: Option<string>) returns (reply: Reply, result: seq<Level>)
      ensures reply == Json(200, true)
      ensures NewestFirst(result)
      ensures creator.Some? && creator.value != "" ==>
        && multiset(result) == multiset(LevelsBy(levels, creator.value))
        && (forall l :: l in result <==> l in levels && l.creator == creator.value)
      ensures creator.None? || creator.value == "" ==> multiset(result) == multiset(levels)
    {
      var selected := levels;
      if creator.Some? && creator.value != "" {
        selected := LevelsBy(levels, creator.value);
      }
      result := SortNewest(selected);
      reply := Json(200, true);
      forall l ensures l in result <==> l in selected {
        assert l in result <==> l in multiset(result);
      }
    }

    /** GET /levels/:id; an id that does not cast is answered like a missing one. */
    method GetLevel(param: IdParam) returns (reply: Reply, level: Option<Level>)
      ensures level.Some? ==> reply == Json(200, true) && param.ObjectId? && level.value in levels && level.value.id == param.id
      ensures level.None? ==> reply == Json(404, false)
      ensures param.ObjectId? ==> (level.Some? <==> exists l :: l in levels && l.id == param.id)
      ensures param.NotAnObjectId? ==> level.None?
    {
      if param.NotAnObjectId? {
        reply, level := Json(404, false), None;
        return;
      }
      var k := FindLevel(levels, param.id);
      if k.None? {
        reply, level := Json(404, false), None;
        return;
      }
      reply, level := Json(200, true), Some(levels[k.value]);
    }

    /** DELETE /levels/:id: owner or admin only; the blobs are cleaned up
        before the record is removed, so the delete comes after every
        cleanup call in the media-service log. */
    method DeleteLevel(authorization: Option<string>, param: IdParam, svc: Services) returns (reply: Reply)
      requires Valid()
      modifies this
      ensures Valid()
      ensures users == old(users) && nextId == old(nextId)
      ensures Authenticate(authorization, svc.verify).Failure? ==>
        reply == Json(401, false) && levels == old(levels) && blobLog == old(blobLog) && deletions == old(deletions)
      ensures Authenticate(authorization, svc.verify).Success? && param.NotAnObjectId? ==>
        reply == Json(500, false) && levels == old(levels) && blobLog == old(blobLog) && deletions == old(deletions)
      ensures Authenticate(authorization, svc.verify).Success? && param.ObjectId? && FindLevel(old(levels), param.id).None? ==>
        reply == Json(404, false) && levels == old(levels) && blobLog == old(blobLog) && deletions == old(deletions)
      ensures Authenticate(authorization, svc.verify).Success? && param.ObjectId? && FindLevel(old(levels), param.id).Some? ==>
        var k := FindLevel(old(levels), param.id).value;
        var actor := Authenticate(authorization, svc.verify).value;
        && (!MayDelete(actor, old(levels)[k]) ==>
              reply == Json(403, false) && levels == old(levels) && blobLog == old(blobLog) && deletions == old(deletions))
        && (MayDelete(actor, old(levels)[k]) ==>
              && reply == Json(200, true)
              && blobLog == old(blobLog) + Attempted(CleanupPlan(old(levels)[k]), svc)
              && deletions == old(deletions) + [LevelById(param.id, |blobLog|)]
              && levels == old(levels)[..k] + old(levels)[k + 1..]
              && (forall l :: l in levels ==> l.id != param.id))
    {
      var auth := Authenticate(authorization, svc.verify);
      if auth.Failure? {
        reply := Json(401, false);
        return;
      }
      if param.NotAnObjectId? {
        // the cast error of `findById` is caught by the handler's try block
        reply := Json(500, false);
        return;
      }
      var k := FindLevel(levels, param.id);
      if k.None? {
        reply := Json(404, false);
        return;
      }
      var level := levels[k.value];
      if !MayDelete(auth.value, level) {
        reply := Json(403, false);
        return;
      }
      DeleteCloudinaryFiles(level, svc);
      RemoveLevel(k.value);
      reply := Json(200, true);
    }

    /** `Level.deleteOne({ _id })` for the level at position `k`. */
    method RemoveLevel(k: nat)
      requires Valid() && k < |levels|
      modifies this`levels, this`deletions
      ensures Valid()
      ensures deletions == old(deletions) + [LevelById(old(levels)[k].id, |blobLog|)]
      ensures levels == LevelsExcept(old(levels), old(levels)[k].id)
      ensures levels == old(levels)[..k] + old(levels)[k + 1..]
      ensures forall l :: l in levels ==> l.id != old(levels)[k].id
    {
      LevelsExceptUnique(levels, k);
      deletions := deletions + [LevelById(levels[k].id, |blobLog|)];
      levels := LevelsExcept(levels, levels[k].id);
    }

    /** GET /search: an empty or missing query gives `[]`; otherwise the first
        twenty levels, in stored order, whose title or creator matches. */
    method Search(query: Option<string>, svc: Services) returns (reply: Reply, results: seq<Level>)
      ensures query.None? || query.value == "" ==> reply == BareArray && results == []
      ensures query.Some? && query.value != "" && !svc.regexValid(query.value) ==> reply == Unhandled && results == []
      ensures query.Some? && query.value != "" && svc.regexValid(query.value) ==>
        var matching := Matching(levels, query.value, svc);
        && reply == BareArray
        && results == matching[..if |matching| <= SearchLimit then |matching| else SearchLimit]
        && (forall l :: l in results ==>
              l in levels && (svc.regexMatch(query.value, l.title) || svc.regexMatch(query.value, l.creator)))
    {
      if query.None? || query.value == "" {
        reply, results := BareArray, [];
        return;
      }
      if !svc.regexValid(query.value) {
        // the database rejects the pattern and nothing catches the error
        reply, results := Unhandled, [];
        return;
      }
      var matching := Matching(levels, query.value, svc);
      results := if |matching| <= SearchLimit then matching else matching[..SearchLimit];
      reply := BareArray;
      assert forall l :: l in results ==> l in matching;
    }

    /** GET /admin/users: usernames and roles, for a token whose role is admin. */
    method AdminUsers(authorization: Option<string>, svc: Services) returns (reply: Reply, views: seq<UserView>)
      ensures Authenticate(authorization, svc.verify).Failure? ==> reply == Json(401, false) && views == []
      ensures Authenticate(authorization, svc.verify).Success? ==>
        var actor := Authenticate(authorization, svc.verify).value;
        && (actor.role != AdminRole ==> reply == Json(403, false) && views == [])
        && (actor.role == AdminRole ==>
              && reply == Json(200, true) && |views| == |users|
              && forall i :: 0 <= i < |users| ==>
                   views[i] == UserView(users[i].id, users[i].username, users[i].role))
    {
      var auth := Authenticate(authorization, svc.verify);
      if auth.Failure? {
        reply, views := Json(401, false), [];
        return;
      }
      if auth.value.role != AdminRole {
        reply, views := Json(403, false), [];
        return;
      }
      reply, views := Json(200, true), Views(users);
    }

    /** GET /admin/levels: every level, for a token whose role is admin. */
    method AdminLevels(authorization: Option<string>, svc: Services) returns (reply: Reply, result: seq<Level>)
      ensures Authenticate(authorization, svc.verify).Failure? ==> reply == Json(401, false) && result == []
      ensures Authenticate(authorization, svc.verify).Success? ==>
        var actor := Authenticate(authorization, svc.verify).value;
        && (actor.role != AdminRole ==> reply == Json(403, false) && result == [])
        && (actor.role == AdminRole ==> reply == Json(200, true) && result == levels)
    {
      var auth := Authenticate(authorization, svc.verify);
      if auth.Failure? {
        reply, result := Json(401, false), [];
        return;
      }
      if auth.value.role != AdminRole {
        reply, result := Json(403, false), [];
        return;
      }
      reply, result := Json(200, true), levels;
    }

    /** DELETE /admin/users/:username: cleans up the blobs of each of the
        target's levels, then removes those levels and the user, so both
        deletes come after every cleanup call in the media-service log. */
    method AdminDeleteUser(authorization: Option<string>, target: string, svc: Services) returns (reply: Reply)
      requires Valid()
      modifies this
      ensures Valid()
      ensures nextId == old(nextId)
      ensures Authenticate(authorization, svc.verify).Failure? ==>
        && reply == Json(401, false) && users == old(users) && levels == old(levels)
        && blobLog == old(blobLog) && deletions == old(deletions)
      ensures Authenticate(authorization, svc.verify).Success? && Authenticate(authorization, svc.verify).value.role != AdminRole ==>
        && reply == Json(403, false) && users == old(users) && levels == old(levels)
        && blobLog == old(blobLog) && deletions == old(deletions)
      ensures Authenticate(authorization, svc.verify).Success? && Authenticate(authorization, svc.verify).value.role == AdminRole ==>
        && reply == Json(200, true)
        && blobLog == old(blobLog) + CascadeCalls(LevelsBy(old(levels), target), svc)
        && deletions == old(deletions) + [LevelsByCreator(target, |blobLog|), UserByName(target, |blobLog|)]
        && levels == LevelsNotBy(old(levels), target)
        && users == RemoveUser(old(users), target)
        && (forall l :: l in levels <==> l in old(levels) && l.creator != target)
        && (forall u :: u in users <==> u in old(users) && u.username != target)
    {
      var auth := Authenticate(authorization, svc.verify);
      if auth.Failure? {
        reply := Json(401, false);
        return;
      }
      if auth.value.role != AdminRole {
        reply := Json(403, false);
        return;
      }
      CleanupLevels(LevelsBy(levels, target), svc);
      RemoveUserAndLevels(target);
      reply := Json(200, true);
    }

    /** The cleanup loop of the admin user deletion: one level after the other,
        each with its own sequence of destroys. */
    method CleanupLevels(doomed: seq<Level>, svc: Services)
      modifies this`blobLog
      ensures blobLog == old(blobLog) + CascadeCalls(doomed, svc)
    {
      var i := 0;
      while i < |doomed|
        invariant 0 <= i <= |doomed|
        invariant blobLog == old(blobLog) + CascadeCalls(doomed[..i], svc)
      {
        DeleteCloudinaryFiles(doomed[i], svc);
        CascadeExtend(old(blobLog), doomed, i, svc);
        i := i + 1;
      }
      assert doomed[..i] == doomed;
    }

    /** `Level.deleteMany({ creator })` followed by `User.deleteOne({ username })`. */
    method RemoveUserAndLevels(target: string)
      requires Valid()
      modifies this`users, this`levels, this`deletions
      ensures Valid()
      ensures deletions == old(deletions) + [LevelsByCreator(target, |blobLog|), UserByName(target, |blobLog|)]
      ensures levels == LevelsNotBy(old(levels), target)
      ensures users == RemoveUser(old(users), target)
      ensures forall l :: l in levels <==> l in old(levels) && l.creator != target
      ensures forall u :: u in users <==> u in old(users) && u.username != target
    {
      RemoveUniqueUser(users, target);
      LevelsNotByValid(levels, target);
      var keptLevels, keptUsers := LevelsNotBy(levels, target), RemoveUser(users, target);
      forall i | 0 <= i < |keptLevels| ensures keptLevels[i].id < nextId {
        assert keptLevels[i] in levels;
      }
      forall i | 0 <= i < |keptUsers| ensures keptUsers[i].id < nextId {
        assert keptUsers[i] in users;
      }
      deletions := deletions + [LevelsByCreator(target, |blobLog|), UserByName(target, |blobLog|)];
      levels, users := keptLevels, keptUsers;
    }
  }
}
