/** Calls to the media service: the public id of a stored URL, the calls that
    publish and cleanup plan to make, and which of them a single try block
    actually issues. */
module Blobs {
  import opened Wrappers
  import opened JsString
  import opened Records

  /** `url.split("/").pop()`. */
  function LastSegment(url: string): (segment: string)
    ensures '/' !in segment
  {
    Last(Split(url, '/'))
  }

  /** `url.split("/").pop().split(".")[0]`: the id handed to `destroy`. */
  function PublicId(url: string): (id: string)
    ensures '/' !in id && '.' !in id
  {
    var segment := LastSegment(url);
    SplitFirst(segment, '.');
    assert forall x :: x in Split(segment, '.')[0] ==> x in segment;
    Split(segment, '.')[0]
  }

  /** The public id is the last `/`-separated segment of the URL, cut at its
      first `.`: the segment is the longest suffix of the URL without `/`, and
      the id is the longest prefix of that segment without `.`. */
  lemma {:induction false} PublicIdOfUrl(url: string)
    ensures var segment := LastSegment(url);
      && |segment| <= |url| && url[|url| - |segment|..] == segment
      && (|segment| == |url| || url[|url| - |segment| - 1] == '/')
    ensures var segment, id := LastSegment(url), PublicId(url);
      && id <= segment
      && (|id| == |segment| || segment[|id|] == '.')
  {
    SplitLast(url, '/');
    SplitFirst(LastSegment(url), '.');
  }

  /** Whether the media service accepts a call. */
  predicate Succeeds(call: BlobCall, svc: Services)
  {
    match call
    case Upload(file, kind) => svc.upload(file, kind).Some?
    case Destroy(id, kind) => svc.destroy(id, kind)
  }

  predicate AllSucceed(plan: seq<BlobCall>, svc: Services)
  {
    forall i :: 0 <= i < |plan| ==> Succeeds(plan[i], svc)
  }

  /** The calls issued when `plan` is awaited call by call inside one try
      block: every call up to and including the first one that fails. */
  function Attempted(plan: seq<BlobCall>, svc: Services): seq<BlobCall>
    decreases |plan|
  {
    if plan == [] then []
    else if Succeeds(plan[0], svc) then [plan[0]] + Attempted(plan[1..], svc)
    else [plan[0]]
  }

  /** What a try block issues is a prefix of its plan in which every call but
      the last succeeded: the whole plan when every call succeeds, and
      otherwise ending with the first call that fails. */
  lemma {:induction false} AttemptedPrefix(plan: seq<BlobCall>, svc: Services)
    ensures var done := Attempted(plan, svc);
      && |done| <= |plan|
      && (forall i {:trigger done[i]} :: 0 <= i < |done| ==> done[i] == plan[i])
      && (forall i :: 0 <= i < |done| - 1 ==> Succeeds(done[i], svc))
      && (AllSucceed(plan, svc) ==> done == plan)
      && (!AllSucceed(plan, svc) ==> done != [] && !Succeeds(done[|done| - 1], svc))
    decreases |plan|
  {
    if plan != [] && Succeeds(plan[0], svc) {
      var rest := plan[1..];
      AttemptedPrefix(rest, svc);
      var done := Attempted(plan, svc);
      assert done == [plan[0]] + Attempted(rest, svc);
      forall i | 0 <= i < |done| ensures done[i] == plan[i] {
        if i > 0 { assert done[i] == Attempted(rest, svc)[i - 1]; }
      }
      if AllSucceed(plan, svc) {
        assert AllSucceed(rest, svc) by {
          forall j | 0 <= j < |rest| ensures Succeeds(rest[j], svc) { assert rest[j] == plan[j + 1]; }
        }
        assert plan == [plan[0]] + rest;
      } else {
        assert !AllSucceed(rest, svc) by {
          var j :| 0 <= j < |plan| && !Succeeds(plan[j], svc);
          assert j > 0 && rest[j - 1] == plan[j];
        }
      }
    }
  }

  /** Calls that all succeed are issued and the plan goes on after them. */
  lemma {:induction false} AttemptedAfter(plan: seq<BlobCall>, i: nat, svc: Services)
    requires i <= |plan|
    requires forall j :: 0 <= j < i ==> Succeeds(plan[j], svc)
    ensures Attempted(plan, svc) == plan[..i] + Attempted(plan[i..], svc)
    decreases i
  {
    if i > 0 {
      var rest := plan[1..];
      assert Succeeds(plan[0], svc);
      assert Attempted(plan, svc) == [plan[0]] + Attempted(rest, svc);
      forall j | 0 <= j < i - 1 ensures Succeeds(rest[j], svc) {
        assert rest[j] == plan[j + 1];
      }
      AttemptedAfter(rest, i - 1, svc);
      assert rest[i - 1..] == plan[i..];
      assert plan[..i] == [plan[0]] + rest[..i - 1];
      var tail := Attempted(plan[i..], svc);
      calc {
        Attempted(plan, svc);
        [plan[0]] + (rest[..i - 1] + tail);
        ([plan[0]] + rest[..i - 1]) + tail;
        plan[..i] + tail;
      }
    }
  }

  /** Issuing call `i` of a plan extends the issued prefix by one. */
  lemma IssueNext(issued: seq<BlobCall>, plan: seq<BlobCall>, i: nat)
    requires i < |plan|
    ensures issued + plan[..i] + [plan[i]] == issued + plan[..i + 1]
  {
    assert plan[..i + 1] == plan[..i] + [plan[i]];
  }

  /** The first failing call is the last one issued. */
  lemma AttemptedStopsAt(plan: seq<BlobCall>, i: nat, svc: Services)
    requires i < |plan|
    requires forall j :: 0 <= j < i ==> Succeeds(plan[j], svc)
    requires !Succeeds(plan[i], svc)
    ensures Attempted(plan, svc) == plan[..i + 1]
  {
    AttemptedAfter(plan, i, svc);
    assert plan[..i + 1] == plan[..i] + [plan[i]];
  }

  /** Running two plans in one try block: the second starts only when every
      call of the first succeeded. */
  lemma {:induction false} AttemptedAppend(a: seq<BlobCall>, b: seq<BlobCall>, svc: Services)
    ensures Attempted(a + b, svc) == if AllSucceed(a, svc) then a + Attempted(b, svc) else Attempted(a, svc)
    decreases |a|
  {
    if a == [] {
      assert a + b == b;
    } else {
      assert (a + b)[0] == a[0] && (a + b)[1..] == a[1..] + b;
      if Succeeds(a[0], svc) {
        AttemptedAppend(a[1..], b, svc);
        assert AllSucceed(a, svc) <==> AllSucceed(a[1..], svc) by {
          assert forall j :: 0 <= j < |a[1..]| ==> a[1..][j] == a[j + 1];
          if AllSucceed(a[1..], svc) {
            forall j | 0 <= j < |a| ensures Succeeds(a[j], svc) {
              if j > 0 { assert a[j] == a[1..][j - 1]; }
            }
          }
        }
        assert a == [a[0]] + a[1..];
      } else {
        assert !AllSucceed(a, svc) by { assert !Succeeds(a[0], svc); }
      }
    }
  }

  /** Destroying each image URL, in order, with the default resource type. */
  function ImageDestroys(images: seq<string>): (plan: seq<BlobCall>)
    ensures |plan| == |images|
  {
    seq(|images|, i requires 0 <= i < |images| => Destroy(PublicId(images[i]), Image))
  }

  /** What `deleteCloudinaryFiles` sets out to destroy: each image, then the
      JSON blob as `raw` when the level has a JSON URL. */
  function CleanupPlan(level: Level): seq<BlobCall>
  {
    ImageDestroys(level.images)
    + (if level.jsonUrl != "" then [Destroy(PublicId(level.jsonUrl), Raw)] else [])
  }

  /** Cleanup destroys the images in order and the JSON blob last; it reaches
      the JSON blob only when every image destroy succeeded, and it stops at
      the first destroy that fails. */
  lemma {:induction false} CleanupOrder(level: Level, svc: Services)
    ensures var done, n := Attempted(CleanupPlan(level), svc), |level.images|;
      && |done| <= n + 1
      && (forall i :: 0 <= i < |done| && i < n ==> done[i] == Destroy(PublicId(level.images[i]), Image))
      && (|done| == n + 1 ==> done[n] == Destroy(PublicId(level.jsonUrl), Raw))
      && (|done| == n + 1 <==>
            level.jsonUrl != "" && forall i :: 0 <= i < n ==> svc.destroy(PublicId(level.images[i]), Image))
  {
    var plan, n := CleanupPlan(level), |level.images|;
    var done := Attempted(plan, svc);
    AttemptedPrefix(plan, svc);
    assert |plan| == if level.jsonUrl != "" then n + 1 else n;
    assert forall i :: 0 <= i < n ==> plan[i] == Destroy(PublicId(level.images[i]), Image);
    assert |plan| == n + 1 ==> plan[n] == Destroy(PublicId(level.jsonUrl), Raw);
    if |done| == n + 1 {
      forall i | 0 <= i < n ensures svc.destroy(PublicId(level.images[i]), Image) {
        assert Succeeds(done[i], svc);
      }
    }
    if level.jsonUrl != "" && forall i :: 0 <= i < n ==> svc.destroy(PublicId(level.images[i]), Image) {
      AttemptedAfter(plan, n, svc);
      assert plan[n..] == [plan[n]];
      assert Attempted(plan[n..], svc) == [plan[n]];
    }
  }

  /** Cleanup in two stages: the image destroys, then, once they all
      succeeded, the raw JSON destroy when there is a JSON URL. */
  lemma CleanupStages(level: Level, svc: Services)
    ensures var images := ImageDestroys(level.images);
      Attempted(CleanupPlan(level), svc)
        == if AllSucceed(images, svc) && level.jsonUrl != ""
           then Attempted(images, svc) + [Destroy(PublicId(level.jsonUrl), Raw)]
           else Attempted(images, svc)
  {
    var images := ImageDestroys(level.images);
    var json := if level.jsonUrl != "" then [Destroy(PublicId(level.jsonUrl), Raw)] else [];
    AttemptedAppend(images, json, svc);
    assert CleanupPlan(level) == images + json;
    AttemptedPrefix(images, svc);
    assert json != [] ==> json[1..] == [] && Attempted(json, svc) == json;
  }

  /** `req.files[slot]` contributes its buffer when the slot was sent. */
  function Slot(file: Option<Bytes>): seq<Bytes>
  {
    if file.Some? then [file.value] else []
  }

  /** The images sent in the slots image1, image2, image3, in slot order. */
  function PresentImages(image1: Option<Bytes>, image2: Option<Bytes>, image3: Option<Bytes>): (images: seq<Bytes>)
    ensures |images| <= 3
  {
    Slot(image1) + Slot(image2) + Slot(image3)
  }

  /** What publish sets out to upload: the JSON file as `raw` first, then each
      image with the default `auto` type. */
  function UploadPlan(json: Bytes, images: seq<Bytes>): (plan: seq<BlobCall>)
  {
    [Upload(json, Raw)] + seq(|images|, i requires 0 <= i < |images| => Upload(images[i], Auto))
  }

  lemma UploadPlanAppend(json: Bytes, images: seq<Bytes>, image: Bytes)
    ensures UploadPlan(json, images + [image]) == UploadPlan(json, images) + [Upload(image, Auto)]
  {
  }

  /** When the uploads for the first images all succeeded and the next image
      fails, publish has issued exactly those uploads and that failing one. */
  lemma UploadFailsAt(json: Bytes, images: seq<Bytes>, k: nat, svc: Services)
    requires k < |images|
    requires AllSucceed(UploadPlan(json, images[..k]), svc)
    requires svc.upload(images[k], Auto).None?
    ensures !AllSucceed(UploadPlan(json, images), svc)
    ensures Attempted(UploadPlan(json, images), svc) == UploadPlan(json, images[..k]) + [Upload(images[k], Auto)]
  {
    var plan := UploadPlan(json, images);
    assert plan[..k + 1] == UploadPlan(json, images[..k]);
    assert plan[k + 1] == Upload(images[k], Auto);
    forall j | 0 <= j < k + 1 ensures Succeeds(plan[j], svc) {
      assert plan[j] == UploadPlan(json, images[..k])[j];
    }
    AttemptedStopsAt(plan, k + 1, svc);
    assert plan[..k + 2] == plan[..k + 1] + [plan[k + 1]];
  }

  /** Publish uploads nothing but the JSON file and the images: a failed
      publish leaves its earlier uploads in place, with no compensating destroy. */
  lemma {:induction false} PublishNeverDestroys(json: Bytes, images: seq<Bytes>, svc: Services)
    ensures forall c :: c in Attempted(UploadPlan(json, images), svc) ==> c.Upload?
  {
    var plan := UploadPlan(json, images);
    var done := Attempted(plan, svc);
    AttemptedPrefix(plan, svc);
    forall c | c in done ensures c.Upload? {
      var i :| 0 <= i < |done| && done[i] == c;
      assert c == plan[i];
    }
  }

  /** Where publish's try block stands: the calls issued so far, whether all
      of them succeeded, and the URLs the media service returned. */
  datatype Uploads = Uploads(calls: seq<BlobCall>, ok: bool, jsonUrl: string, images: seq<string>)

  /** `uploadToCloudinary(jsonFile, "raw")`, the first step of publish. */
  function UploadJson(json: Bytes, svc: Services): (u: Uploads)
    ensures u.calls == [Upload(json, Raw)] && u.images == []
    ensures u.ok <==> svc.upload(json, Raw).Some?
  {
    var url := svc.upload(json, Raw);
    Uploads([Upload(json, Raw)], url.Some?, if url.Some? then url.value else "", [])
  }

  /** `if (req.files[slot]) images.push(await uploadToCloudinary(buffer))`,
      reached only while every earlier upload has succeeded. */
  function UploadSlot(slot: Option<Bytes>, u: Uploads, svc: Services): (u': Uploads)
    ensures !u.ok || slot.None? ==> u' == u
    ensures u.ok && slot.Some? ==>
      && u'.calls == u.calls + [Upload(slot.value, Auto)]
      && u'.jsonUrl == u.jsonUrl
      && (u'.ok <==> svc.upload(slot.value, Auto).Some?)
  {
    if !u.ok || slot.None? then u
    else
      var url := svc.upload(slot.value, Auto);
      Uploads(u.calls + [Upload(slot.value, Auto)], url.Some?, u.jsonUrl,
              if url.Some? then u.images + [url.value] else u.images)
  }

  /** The uploads of publish's try block, slot after slot. */
  function PublishUploads(json: Bytes, image1: Option<Bytes>, image2: Option<Bytes>, image3: Option<Bytes>,
                          svc: Services): Uploads
  {
    UploadSlot(image3, UploadSlot(image2, UploadSlot(image1, UploadJson(json, svc), svc), svc), svc)
  }

  /** `u` is where the try block stands after setting out to upload the JSON
      file and the images `sent`. */
  ghost predicate UploadedAs(json: Bytes, sent: seq<Bytes>, u: Uploads, svc: Services)
  {
    && u.calls == Attempted(UploadPlan(json, sent), svc)
    && (u.ok <==> AllSucceed(UploadPlan(json, sent), svc))
    && (u.ok ==>
          && svc.upload(json, Raw) == Some(u.jsonUrl)
          && |u.images| == |sent|
          && forall k :: 0 <= k < |sent| ==> svc.upload(sent[k], Auto) == Some(u.images[k]))
  }

  lemma UploadJsonAs(json: Bytes, svc: Services)
    ensures UploadedAs(json, [], UploadJson(json, svc), svc)
  {
    var plan := UploadPlan(json, []);
    assert plan == [Upload(json, Raw)];
    assert Attempted(plan[1..], svc) == [];
  }

  /** One slot of publish keeps the try block where the plan says it is. */
  lemma UploadSlotAs(json: Bytes, sent: seq<Bytes>, slot: Option<Bytes>, u: Uploads, svc: Services)
    requires UploadedAs(json, sent, u, svc)
    ensures UploadedAs(json, sent + Slot(slot), UploadSlot(slot, u, svc), svc)
  {
    if slot.None? {
      assert sent + Slot(slot) == sent;
    } else if !u.ok {
      UploadAfterFailure(json, sent, slot.value, u, svc);
    } else {
      UploadNext(json, sent, slot.value, u, svc);
    }
  }

  /** After a failed upload the try block has ended: a further slot issues nothing. */
  lemma UploadAfterFailure(json: Bytes, sent: seq<Bytes>, x: Bytes, u: Uploads, svc: Services)
    requires UploadedAs(json, sent, u, svc) && !u.ok
    ensures UploadedAs(json, sent + [x], u, svc)
  {
    var plan := UploadPlan(json, sent);
    UploadPlanAppend(json, sent, x);
    AttemptedAppend(plan, [Upload(x, Auto)], svc);
    AttemptedPrefix(plan, svc);
    var done := Attempted(plan, svc);
    assert UploadPlan(json, sent + [x])[|done| - 1] == plan[|done| - 1];
  }

  /** While every upload has succeeded, the next image is uploaded and either
      adds its URL or ends the try block. */
  lemma UploadNext(json: Bytes, sent: seq<Bytes>, x: Bytes, u: Uploads, svc: Services)
    requires UploadedAs(json, sent, u, svc) && u.ok
    ensures UploadedAs(json, sent + [x], UploadSlot(Some(x), u, svc), svc)
  {
    var plan := UploadPlan(json, sent);
    var plan' := UploadPlan(json, sent + [x]);
    UploadPlanAppend(json, sent, x);
    AttemptedAppend(plan, [Upload(x, Auto)], svc);
    AttemptedPrefix(plan, svc);
    assert Attempted([Upload(x, Auto)], svc) == [Upload(x, Auto)] by {
      assert [Upload(x, Auto)][1..] == [];
    }
    var u' := UploadSlot(Some(x), u, svc);
    if svc.upload(x, Auto).Some? {
      forall k | 0 <= k < |sent + [x]| ensures svc.upload((sent + [x])[k], Auto) == Some(u'.images[k]) {
        if k < |sent| {
          assert u'.images[k] == u.images[k];
        }
      }
    } else {
      assert !Succeeds(plan'[|plan|], svc);
    }
  }

  /** Publish's uploads are the attempted prefix of JSON-then-images: the URLs
      come back exactly when every upload succeeds, one per sent image, in
      slot order. */
  lemma PublishUploadsAttempted(json: Bytes, image1: Option<Bytes>, image2: Option<Bytes>, image3: Option<Bytes>,
                                svc: Services)
    ensures UploadedAs(json, PresentImages(image1, image2, image3), PublishUploads(json, image1, image2, image3, svc), svc)
  {
    var u0 := UploadJson(json, svc);
    UploadJsonAs(json, svc);
    var u1 := UploadSlot(image1, u0, svc);
    UploadSlotAs(json, [], image1, u0, svc);
    assert [] + Slot(image1) == Slot(image1);
    var u2 := UploadSlot(image2, u1, svc);
    UploadSlotAs(json, Slot(image1), image2, u1, svc);
    UploadSlotAs(json, Slot(image1) + Slot(image2), image3, u2, svc);
  }

  /** The destroys `/admin/users/:username` issues: each level's cleanup in turn. */
  function CascadeCalls(levels: seq<Level>, svc: Services): seq<BlobCall>
    decreases |levels|
  {
    if levels == [] then []
    else CascadeCalls(levels[..|levels| - 1], svc) + Attempted(CleanupPlan(levels[|levels| - 1]), svc)
  }

  /** One more level of the cascade: after the calls `issued` for the levels
      before `i`, its cleanup calls follow. */
  lemma CascadeExtend(issued: seq<BlobCall>, levels: seq<Level>, i: nat, svc: Services)
    requires i < |levels|
    ensures issued + CascadeCalls(levels[..i], svc) + Attempted(CleanupPlan(levels[i]), svc)
         == issued + CascadeCalls(levels[..i + 1], svc)
  {
    assert levels[..i + 1][..i] == levels[..i];
  }

  /** One level's cleanup issues only destroys, starting with the first
      planned one. */
  lemma CleanupDestroysOnly(level: Level, svc: Services)
    ensures var plan, done := CleanupPlan(level), Attempted(CleanupPlan(level), svc);
      && (plan != [] ==> done != [] && done[0] == plan[0])
      && (forall c :: c in done ==> c.Destroy?)
  {
    var plan := CleanupPlan(level);
    var done := Attempted(plan, svc);
    AttemptedPrefix(plan, svc);
    forall c | c in done ensures c.Destroy? {
      var i :| 0 <= i < |done| && done[i] == c;
      assert c == plan[i];
    }
  }

  /** A failing destroy ends only its own level's cleanup: the cleanup of every
      level is started, and the cascade issues only destroys. */
  lemma {:induction false} CascadeReachesEveryLevel(levels: seq<Level>, svc: Services)
    ensures forall l :: l in levels && CleanupPlan(l) != [] ==> CleanupPlan(l)[0] in CascadeCalls(levels, svc)
    ensures forall c :: c in CascadeCalls(levels, svc) ==> c.Destroy?
    decreases |levels|
  {
    if levels != [] {
      var front, l := levels[..|levels| - 1], levels[|levels| - 1];
      CascadeReachesEveryLevel(front, svc);
      assert levels == front + [l];
      CleanupDestroysOnly(l, svc);
    }
  }
}
