/**
 * `uploadMedia`: the media files referenced by the entities are matched
 * against the target's file library by name, width and height; the files the
 * target already has are reused under their remote ids, the others are
 * downloaded and uploaded when uploading is enabled. Every returned file
 * carries the local id it replaces as `localId`.
 */
module Upload {
  import opened Values
  import opened Collections
  import opened Remote

  /** The comparison of `_.differenceWith` and of the matching `_.find`. */
  predicate SameFile(local: Value, remote: Value)
  {
    && Get(local, "name") == Get(remote, "name")
    && Get(local, "width") == Get(remote, "width")
    && Get(local, "height") == Get(remote, "height")
  }

  /** The target already has a file like `f`. */
  predicate Known(existing: seq<Value>, f: Value)
  {
    exists i :: 0 <= i < |existing| && SameFile(f, existing[i])
  }

  /** The first remote file like `f`, or undefined. */
  function FindSameFile(existing: seq<Value>, f: Value): (r: Value)
    ensures Known(existing, f) ==> r in existing && SameFile(f, r)
    ensures !Known(existing, f) ==> r == Undef
    ensures Known(existing, f) ==>
      exists i :: 0 <= i < |existing| && existing[i] == r && SameFile(f, existing[i]) && forall j :: 0 <= j < i ==> !SameFile(f, existing[j])
  {
    if existing == [] then Undef
    else if SameFile(f, existing[0]) then existing[0]
    else
      var r := FindSameFile(existing[1..], f);
      assert forall i :: 1 <= i < |existing| ==> existing[i] == existing[1..][i - 1];
      FirstMatchTail(existing, x => SameFile(f, x), r);
      r
  }

  /** `filesToUpload`: the media files the target has no file like, in order. */
  function ToUpload(media: seq<Value>, existing: seq<Value>): (r: seq<Value>)
    ensures forall x :: x in r <==> x in media && !Known(existing, x)
    ensures |r| <= |media|
  {
    if media == [] then []
    else if Known(existing, media[0]) then ToUpload(media[1..], existing)
    else [media[0]] + ToUpload(media[1..], existing)
  }

  /**
   * `{ ...existingFile, localId: entityFile.id }`, or the local file without
   * its id when nothing matches: the target's file, or the local one, tagged
   * with the local id it stands for.
   */
  function Reused(existing: seq<Value>, f: Value): (r: Value)
    ensures Get(r, "localId") == Get(f, "id")
    ensures var m := FindSameFile(existing, f);
      Truthy(m) ==> m in existing && SameFile(f, m) && forall k :: k != "localId" ==> Get(r, k) == Get(m, k)
    ensures var m := FindSameFile(existing, f);
      !Truthy(m) ==> Get(r, "id") == Undef && forall k :: k != "localId" && k != "id" ==> Get(r, k) == Get(f, k)
  {
    var m := FindSameFile(existing, f);
    if Truthy(m) then
      SetFieldGet(Spread(m), "localId", Get(f, "id"), "localId");
      forall k | k != "localId" ensures Get(Obj(SetField(Spread(m), "localId", Get(f, "id"))), k) == Get(m, k) {
        SetFieldGet(Spread(m), "localId", Get(f, "id"), k);
      }
      Obj(SetField(Spread(m), "localId", Get(f, "id")))
    else
      var a := SetField(Spread(f), "id", Undef);
      SetFieldGet(a, "localId", Get(f, "id"), "localId");
      SetFieldGet(a, "localId", Get(f, "id"), "id");
      SetFieldGet(Spread(f), "id", Undef, "id");
      forall k | k != "localId" && k != "id" ensures Get(Obj(SetField(a, "localId", Get(f, "id"))), k) == Get(f, k) {
        SetFieldGet(a, "localId", Get(f, "id"), k);
        SetFieldGet(Spread(f), "id", Undef, k);
      }
      Obj(SetField(a, "localId", Get(f, "id")))
  }

  /** `existingMediaFiles`: `Reused` over the files the target has. */
  function ReusedAll(existing: seq<Value>, files: seq<Value>): (r: seq<Value>)
    ensures |r| == |files| && forall i :: 0 <= i < |files| ==> r[i] == Reused(existing, files[i])
  {
    if files == [] then [] else [Reused(existing, files[0])] + ReusedAll(existing, files[1..])
  }

  // ---------------------------------------------------------------------------
  // Uploading

  /** The download of a file's URL. */
  function DownloadRequest(f: Value): Request
  {
    Request(Fetch, External, Text(Get(f, "url")), Undef)
  }

  /** The multipart upload: the downloaded bytes as `files`, named after the file and typed by its MIME type. */
  function UploadRequest(f: Value, bytes: Value): Request
  {
    Request(Create, Root, "/upload", Obj([Field("files", bytes), Field("name", Get(f, "name")), Field("type", Get(f, "mime"))]))
  }

  function UploadFailed(f: Value): string
  {
    "Failed to upload file: " + Text(Get(f, "name")) + " with id " + Text(Get(f, "id"))
  }

  function FetchFailed(f: Fault): string
  {
    "Failed to fetch files: " + f.text
  }

  /**
   * The uploads so far: one result per file (the new file, or null /
   * undefined), the errors pushed, the requests sent, and the rejection of a
   * download, which ends the batch.
   */
  datatype Uploads = Uploads(results: seq<Value>, errors: seq<ErrorItem>, sent: seq<Request>, fault: Option<Fault>)

  /** One file's download and upload, at time `|u.sent|` of the batch's server. */
  function UploadStep(server: Server, u: Uploads, f: Value): (v: Uploads)
    ensures |u.errors| <= |v.errors| <= |u.errors| + 1 && v.errors[..|u.errors|] == u.errors
    ensures |u.results| <= |v.results| && v.results[..|u.results|] == u.results
  {
    if u.fault.Some? then u
    else
      var dl := DownloadRequest(f);
      match server(|u.sent|, dl)
      case Err(e) => u.(sent := u.sent + [dl], fault := Some(e))
      case Ok(bytes) =>
        if !Truthy(bytes) then u.(results := u.results + [Undef], sent := u.sent + [dl])
        else
          var up := UploadRequest(f, bytes);
          var sent := u.sent + [dl, up];
          match server(|u.sent + [dl]|, up)
          case Err(e) => Uploads(u.results + [Null], u.errors + [ErrorItem(UploadFailed(f), Some(GetErrorDetails(e)))], sent, None)
          case Ok(body) =>
            if Nullish(body) then Uploads(u.results + [Null], u.errors + [ErrorItem(UploadFailed(f), Some(GetErrorDetails(MissingPayload)))], sent, None)
            else
              var created := Index0(body);
              Uploads(u.results + [if Truthy(created) then Obj(SetField(Spread(created), "localId", Get(f, "id"))) else Null], u.errors, sent, None)
  }

  /** The uploads of `files`, one after the other. */
  function UploadAll(server: Server, u: Uploads, files: seq<Value>): (v: Uploads)
    ensures |u.errors| <= |v.errors| <= |u.errors| + |files| && v.errors[..|u.errors|] == u.errors
    ensures |u.results| <= |v.results| && v.results[..|u.results|] == u.results
    decreases |files|
  {
    if files == [] then u else UploadAll(server, UploadStep(server, u, files[0]), files[1..])
  }

  /**
   * Each file adds one result, at most one error and at most two requests,
   * and a failed upload does not stop the others. The download comes first:
   * a rejected download ends the batch with no error; a download without
   * data gives an undefined result and sends nothing more. Otherwise the
   * file is uploaded: a rejected upload, or an answer without payload, adds
   * exactly one "Failed to upload file" error with the error's details and a
   * null result; any other answer adds no error.
   */
  lemma UploadStepEffect(server: Server, u: Uploads, f: Value)
    requires u.fault.None?
    ensures var v, dl := UploadStep(server, u, f), server(|u.sent|, DownloadRequest(f));
      && v.sent[..|u.sent|] == u.sent && |u.sent| < |v.sent| <= |u.sent| + 2
      && v.sent[|u.sent|] == DownloadRequest(f)
      && (v.fault.None? ==> v.results == u.results + [v.results[|u.results|]])
      && (v.fault.None? ==> v.errors == u.errors || v.errors == u.errors + [ErrorItem(UploadFailed(f), v.errors[|u.errors|].details)])
      && (v.fault.Some? <==> dl.Err?)
      && (v.fault.Some? ==> v == u.(sent := u.sent + [DownloadRequest(f)], fault := Some(dl.fault)))
      && (dl.Ok? && !Truthy(dl.body) ==> v == u.(results := u.results + [Undef], sent := u.sent + [DownloadRequest(f)]))
      && (dl.Ok? && Truthy(dl.body) ==>
            var up := UploadRequest(f, dl.body);
            var answer := server(|u.sent| + 1, up);
            && v.sent == u.sent + [DownloadRequest(f), up]
            && (answer.Err? ==> v.errors == u.errors + [ErrorItem(UploadFailed(f), Some(GetErrorDetails(answer.fault)))]
                                && v.results == u.results + [Null])
            && (answer.Ok? && Nullish(answer.body) ==>
                  v.errors == u.errors + [ErrorItem(UploadFailed(f), Some(GetErrorDetails(MissingPayload)))]
                  && v.results == u.results + [Null])
            && (answer.Ok? && !Nullish(answer.body) ==> v.errors == u.errors))
  {
  }

  /** Without a failed download every file has its result, each one the new file tagged with its local id or nothing. */
  lemma UploadAllResults(server: Server, u: Uploads, files: seq<Value>)
    requires u.fault.None?
    ensures var v := UploadAll(server, u, files);
      v.fault.None? ==>
            && |v.results| == |u.results| + |files|
            && (forall i :: 0 <= i < |files| && Truthy(v.results[|u.results| + i]) ==> Get(v.results[|u.results| + i], "localId") == Get(files[i], "id"))
  {
    var v := UploadAll(server, u, files);
    UploadAllLength(server, u, files);
    forall i | 0 <= i < |files| && v.fault.None? && Truthy(v.results[|u.results| + i])
      ensures Get(v.results[|u.results| + i], "localId") == Get(files[i], "id")
    {
      UploadAllTagged(server, u, files, i);
    }
  }

  lemma {:induction false} UploadAllLength(server: Server, u: Uploads, files: seq<Value>)
    requires u.fault.None?
    ensures var v := UploadAll(server, u, files);
      v.fault.None? ==> |v.results| == |u.results| + |files|
    decreases |files|
  {
    if files != [] {
      var w := UploadStep(server, u, files[0]);
      UploadStepEffect(server, u, files[0]);
      if w.fault.Some? {
        FaultedUploads(server, w, files[1..]);
      } else {
        UploadAllLength(server, w, files[1..]);
      }
    }
  }

  lemma {:induction false} UploadAllTagged(server: Server, u: Uploads, files: seq<Value>, i: nat)
    requires u.fault.None? && i < |files|
    ensures var v := UploadAll(server, u, files);
      v.fault.None? ==> (|v.results| == |u.results| + |files| &&
        (Truthy(v.results[|u.results| + i]) ==> Get(v.results[|u.results| + i], "localId") == Get(files[i], "id")))
    decreases |files|
  {
    var w := UploadStep(server, u, files[0]);
    var v := UploadAll(server, u, files);
    assert v == UploadAll(server, w, files[1..]);
    UploadStepEffect(server, u, files[0]);
    UploadAllLength(server, u, files);
    if w.fault.Some? {
      FaultedUploads(server, w, files[1..]);
    } else if i == 0 {
      UploadedTagged(server, u, files[0], "localId");
      assert v.results[|u.results|] == v.results[..|w.results|][|u.results|];
    } else {
      UploadAllTagged(server, w, files[1..], i - 1);
      assert files[i] == files[1..][i - 1];
      assert |u.results| + i == |w.results| + (i - 1);
    }
  }

  /** After a failed download nothing more is sent. */
  lemma {:induction false} FaultedUploads(server: Server, u: Uploads, files: seq<Value>)
    requires u.fault.Some?
    ensures UploadAll(server, u, files) == u
    decreases |files|
  {
    if files != [] {
      FaultedUploads(server, u, files[1..]);
    }
  }

  /** A truthy upload result is the target's new file, the first of the answer, tagged with the file's local id. */
  lemma UploadedTagged(server: Server, u: Uploads, f: Value, k: string)
    requires u.fault.None? && UploadStep(server, u, f).fault.None?
    ensures var x, dl := UploadStep(server, u, f).results[|u.results|], server(|u.sent|, DownloadRequest(f));
      Truthy(x) ==>
        && dl.Ok? && Truthy(dl.body)
        && var answer := server(|u.sent| + 1, UploadRequest(f, dl.body));
        && answer.Ok? && !Nullish(answer.body)
        && Get(x, "localId") == Get(f, "id")
        && (k != "localId" ==> Get(x, k) == Get(Index0(answer.body), k))
  {
    var dl := DownloadRequest(f);
    var resp := server(|u.sent|, dl);
    if resp.Ok? && Truthy(resp.body) {
      var up := UploadRequest(f, resp.body);
      var answer := server(|u.sent + [dl]|, up);
      if answer.Ok? && !Nullish(answer.body) {
        var created := Index0(answer.body);
        SetFieldGet(Spread(created), "localId", Get(f, "id"), "localId");
        SetFieldGet(Spread(created), "localId", Get(f, "id"), k);
      }
    }
  }

  // ---------------------------------------------------------------------------
  // uploadMedia

  /** `{ media, errors }` */
  datatype MediaResult = MediaResult(media: seq<Value>, errors: seq<ErrorItem>)

  const FilesRequest: Request := Request(Fetch, Root, "/upload/files", Undef)

  /** The file library as lodash iterates it for `_.differenceWith`: an array, or nothing. */
  function FileList(body: Value): seq<Value>
  {
    if body.Arr? then body.items else []
  }

  /**
   * `uploadMedia({ apiClient, mediaFiles, uploadMedia })`. The uploads run
   * one after the other; a rejected download rejects the whole batch, which
   * becomes the "Failed to fetch files" error after the errors so far.
   */
  function UploadMedia(server: Server, t: nat, media: seq<Value>, upload: bool): (r: Call<MediaResult>)
    ensures |r.sent| >= 1 && r.sent[0] == FilesRequest
    ensures server(t, FilesRequest).Err? ==>
      r == Call(MediaResult([], [ErrorItem(FetchFailed(server(t, FilesRequest).fault), None)]), [FilesRequest])
    ensures server(t, FilesRequest).Ok? ==>
      var existing := FileList(server(t, FilesRequest).body);
      var toUpload := ToUpload(media, existing);
      (!upload || toUpload == []) ==>
        r == Call(MediaResult(ReusedAll(existing, Difference(media, toUpload)), []), [FilesRequest])
  {
    match server(t, FilesRequest)
    case Err(e) => Call(MediaResult([], [ErrorItem(FetchFailed(e), None)]), [FilesRequest])
    case Ok(body) =>
      var existing := FileList(body);
      var toUpload := ToUpload(media, existing);
      var reused := ReusedAll(existing, Difference(media, toUpload));
      if toUpload != [] && upload then
        var u := UploadAll(Shifted(server, t + 1), Uploads([], [], [], None), toUpload);
        match u.fault
        case Some(e) => Call(MediaResult([], u.errors + [ErrorItem(FetchFailed(e), None)]), [FilesRequest] + u.sent)
        case None => Call(MediaResult(Compact(UniqBy(u.results + reused, IdOf)), u.errors), [FilesRequest] + u.sent)
      else Call(MediaResult(reused, []), [FilesRequest])
  }

  /** The files reused are exactly the media files the target already has, each under the target's file. */
  lemma MediaPartition(existing: seq<Value>, media: seq<Value>)
    ensures var toUpload := ToUpload(media, existing);
      var kept := Difference(media, toUpload);
      && (forall f :: f in toUpload <==> f in media && !Known(existing, f))
      && (forall f :: f in kept <==> f in media && Known(existing, f))
      && forall i :: 0 <= i < |kept| ==> Get(ReusedAll(existing, kept)[i], "localId") == Get(kept[i], "id")
  {
  }

  /** Nothing is uploaded when uploading is off or every file is known: the known files come back, with no error. */
  lemma MediaUploadGate(server: Server, t: nat, media: seq<Value>, upload: bool)
    requires server(t, FilesRequest).Ok?
    requires !upload || forall f :: f in media ==> Known(FileList(server(t, FilesRequest).body), f)
    ensures var r := UploadMedia(server, t, media, upload);
      var existing := FileList(server(t, FilesRequest).body);
      && r.sent == [FilesRequest]
      && r.value.errors == []
      && r.value.media == ReusedAll(existing, Difference(media, ToUpload(media, existing)))
  {
    if upload {
      NothingToUpload(media, FileList(server(t, FilesRequest).body));
    }
  }

  lemma {:induction false} NothingToUpload(media: seq<Value>, existing: seq<Value>)
    requires forall f :: f in media ==> Known(existing, f)
    ensures ToUpload(media, existing) == []
  {
    if media != [] {
      assert media[0] in media;
      NothingToUpload(media[1..], existing);
    }
  }

  /**
   * After uploading, the media are truthy and have distinct ids, each one
   * either an uploaded file or a reused one, and every truthy file that is
   * the first of the uploaded and reused files with its id is among them;
   * every failed upload leaves at most one error. A rejected download gives
   * no media and the "Failed to fetch files" error after the upload errors.
   */
  lemma MediaUploaded(server: Server, t: nat, media: seq<Value>)
    requires server(t, FilesRequest).Ok?
    ensures var r := UploadMedia(server, t, media, true);
      var existing := FileList(server(t, FilesRequest).body);
      var toUpload := ToUpload(media, existing);
      var u := UploadAll(Shifted(server, t + 1), Uploads([], [], [], None), toUpload);
      var reused := ReusedAll(existing, Difference(media, toUpload));
      && |r.value.errors| <= |toUpload| + 1
      && (toUpload != [] && u.fault.None? ==>
            var all := u.results + reused;
            && r.sent == [FilesRequest] + u.sent
            && UniqueBy(r.value.media, IdOf)
            && (forall x :: x in r.value.media ==> Truthy(x) && x in all)
            && (forall i :: 0 <= i < |all| && Truthy(all[i]) && (forall j :: 0 <= j < i ==> IdOf(all[j]) != IdOf(all[i])) ==>
                  all[i] in r.value.media)
            && r.value.errors == u.errors)
      && (toUpload != [] && u.fault.Some? ==>
            r == Call(MediaResult([], u.errors + [ErrorItem(FetchFailed(u.fault.value), None)]), [FilesRequest] + u.sent))
  {
    var existing := FileList(server(t, FilesRequest).body);
    var toUpload := ToUpload(media, existing);
    var u := UploadAll(Shifted(server, t + 1), Uploads([], [], [], None), toUpload);
    var reused := ReusedAll(existing, Difference(media, toUpload));
    UploadAllResults(Shifted(server, t + 1), Uploads([], [], [], None), toUpload);
    if toUpload != [] && u.fault.None? {
      var all := u.results + reused;
      UniqByUnique(all, IdOf);
      CompactUnique(UniqBy(all, IdOf), IdOf);
      forall i | 0 <= i < |all| && Truthy(all[i]) && (forall j :: 0 <= j < i ==> IdOf(all[j]) != IdOf(all[i]))
        ensures all[i] in Compact(UniqBy(all, IdOf))
      {
        UniqByFirst(all, IdOf, i);
      }
    }
  }
}
