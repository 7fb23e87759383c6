/** The post-creation form's submit handler, as a pure function from the form, the
    signed-in user, the clock reading and the backend's replies to the sequence of
    effects the handler performs.

    The handler runs: a required-field check; `loading` on; upload of the image under
    a timestamped name; insert of the post row; insert of the row linking the image
    to the post; navigation to the feed. The first failing step ends the run; nothing
    done before it is undone; `loading` is switched off on every path that switched
    it on. */
module CreatePost {
  import opened Replies
  import opened FileNames

  /** Identity of the signed-in user (the session's user id). */
  type UserId = string
  /** A store as chosen in the form's `<select>`: the option's value, a string. */
  type StoreId = string
  /** Row id the backend assigns to an inserted post. */
  type PostId = int

  datatype File = File(name: string, content: seq<bv8>)

  /** The form's state when it is submitted. */
  datatype Form = Form(title: string, body: string, file: Option<File>, selectedStore: StoreId)

  datatype PostRow = PostRow(authorId: UserId, storeId: StoreId, title: string, body: string)
  datatype ImageRow = ImageRow(postId: PostId, imageUrl: string)

  /** What the handler does to the world, in the order it does it. */
  datatype Effect =
    | SetLoading(on: bool)
    | Upload(bucket: string, key: string, file: File)
    | InsertPost(post: PostRow)
    | InsertImage(link: ImageRow)
    | Navigate(route: string)

  /** The backend's answer to each of the three requests; an answer is only
      consumed when its request is actually issued. */
  datatype Backend = Backend(upload: Reply<string>, insertPost: Reply<PostId>, insertImage: Reply<()>)

  /** The three backend steps, in the order the handler issues them. */
  datatype Step = UploadStep | PostStep | ImageStep

  datatype Verdict = Invalid | Aborted(at: Step) | Published(postId: PostId)

  /** One run of the handler: its effects, how it ended, and `loading` afterwards. */
  datatype Run = Run(trace: seq<Effect>, verdict: Verdict, loading: bool)

  const ImageBucket := "post-images"
  const FeedRoute := "/"

  /** `!title || !file || !selectedStore`: an empty string and a missing file are falsy. */
  predicate MissingInput(f: Form)
  {
    f.title == "" || f.file.None? || f.selectedStore == ""
  }

  /** The `finally` block: whatever happened, `loading` goes off. */
  function Finish(trace: seq<Effect>, verdict: Verdict): (r: Run)
    ensures |r.trace| == |trace| + 1
    ensures r.trace[|r.trace| - 1] == SetLoading(false) && !r.loading
    ensures r.trace[..|r.trace| - 1] == trace && r.verdict == verdict
  {
    Run(trace + [SetLoading(false)], verdict, false)
  }

  /** `handleSubmit`, with `Date.now()` as `now` and the backend's replies as `backend`.
      `loading` is the flag's value when the form is submitted. */
  function Submit(f: Form, author: UserId, now: nat, backend: Backend, loading: bool): (r: Run)
    ensures r.verdict.Invalid? <==> MissingInput(f)
    ensures r.verdict.Invalid? ==> r.trace == [] && r.loading == loading
    ensures !r.verdict.Invalid? ==>
              && |r.trace| >= 3
              && r.trace[0] == SetLoading(true)
              && r.trace[|r.trace| - 1] == SetLoading(false)
              && !r.loading
    ensures r.verdict.Published? <==>
              !MissingInput(f) && backend.upload.Ok? && backend.insertPost.Ok? && backend.insertImage.Ok?
    ensures r.verdict.Published? ==> r.verdict.postId == backend.insertPost.value
    ensures Navigate(FeedRoute) in r.trace <==> r.verdict.Published?
  {
    if MissingInput(f) then Run([], Invalid, loading)
    else
      var file := f.file.value;
      var key := StorageName(now, Extension(file.name));
      var uploading := [SetLoading(true), Upload(ImageBucket, key, file)];
      match backend.upload
      case Err(_) => Finish(uploading, Aborted(UploadStep))
      case Ok(path) =>
        var posting := uploading + [InsertPost(PostRow(author, f.selectedStore, f.title, f.body))];
        match backend.insertPost
        case Err(_) => Finish(posting, Aborted(PostStep))
        case Ok(postId) =>
          var linking := posting + [InsertImage(ImageRow(postId, path))];
          match backend.insertImage
          case Err(_) => Finish(linking, Aborted(ImageStep))
          case Ok(_) => Finish(linking + [Navigate(FeedRoute)], Published(postId))
  }

  // ---------------------------------------------------------------------------
  // Which backend requests a trace issues
  // ---------------------------------------------------------------------------

  /** The backend step an effect belongs to, if it is a backend request. */
  function StepOf(e: Effect): Option<Step>
  {
    match e
    case Upload(_, _, _) => Some(UploadStep)
    case InsertPost(_) => Some(PostStep)
    case InsertImage(_) => Some(ImageStep)
    case _ => None
  }

  /** The backend steps a trace issues, in trace order. */
  function Issued(trace: seq<Effect>): seq<Step>
  {
    if |trace| == 0 then []
    else
      var rest := Issued(trace[1..]);
      match StepOf(trace[0])
      case Some(s) => [s] + rest
      case None => rest
  }

  lemma {:induction false} IssuedAppend(a: seq<Effect>, b: seq<Effect>)
    ensures Issued(a + b) == Issued(a) + Issued(b)
    decreases |a|
  {
    if |a| > 0 {
      assert (a + b)[0] == a[0];
      assert (a + b)[1..] == a[1..] + b;
      IssuedAppend(a[1..], b);
      match StepOf(a[0])
      case Some(s) =>
        assert Issued(a) == [s] + Issued(a[1..]);
        assert Issued(a + b) == [s] + Issued((a + b)[1..]);
        assert Issued(a + b) == [s] + (Issued(a[1..]) + Issued(b));
      case None =>
        assert Issued(a) == Issued(a[1..]);
        assert Issued(a + b) == Issued((a + b)[1..]);
    } else {
      assert a + b == b;
    }
  }

  /** Appending one effect adds its step, if any, at the end. */
  lemma IssuedSnoc(a: seq<Effect>, e: Effect)
    ensures Issued(a + [e]) == Issued(a) + match StepOf(e) case Some(s) => [s] case None => []
  {
    IssuedOne(e);
    IssuedAppend(a, [e]);
  }

  lemma IssuedOne(e: Effect)
    ensures Issued([e]) == match StepOf(e) case Some(s) => [s] case None => []
  {
  }

  /** All three steps, in the order the handler runs them. */
  const Plan: seq<Step> := [UploadStep, PostStep, ImageStep]

  function Rank(s: Step): nat
  {
    match s
    case UploadStep => 0
    case PostStep => 1
    case ImageStep => 2
  }

  /** Whether the backend's reply to step `s` is an error. */
  predicate Fails(backend: Backend, s: Step)
  {
    match s
    case UploadStep => backend.upload.Err?
    case PostStep => backend.insertPost.Err?
    case ImageStep => backend.insertImage.Err?
  }

  /** The requests issued along each path the handler can take once its inputs are
      complete: upload failed; post insert failed; image insert failed; all succeeded. */
  lemma IssuedByPath(up: Effect, ins: Effect, link: Effect)
    requires up.Upload? && ins.InsertPost? && link.InsertImage?
    ensures Issued([SetLoading(true), up, SetLoading(false)]) == Plan[..1]
    ensures Issued([SetLoading(true), up, ins, SetLoading(false)]) == Plan[..2]
    ensures Issued([SetLoading(true), up, ins, link, SetLoading(false)]) == Plan
    ensures Issued([SetLoading(true), up, ins, link, Navigate(FeedRoute), SetLoading(false)]) == Plan
  {
    var uploading := [SetLoading(true), up];
    assert Issued(uploading) == [UploadStep] by {
      IssuedSnoc([SetLoading(true)], up);
      IssuedOne(SetLoading(true));
      assert uploading == [SetLoading(true)] + [up];
    }
    IssuedSnoc(uploading, SetLoading(false));
    IssuedSnoc(uploading, ins);
    IssuedSnoc(uploading + [ins], SetLoading(false));
    IssuedSnoc(uploading + [ins], link);
    IssuedSnoc(uploading + [ins] + [link], SetLoading(false));
    IssuedSnoc(uploading + [ins] + [link], Navigate(FeedRoute));
    IssuedSnoc(uploading + [ins] + [link] + [Navigate(FeedRoute)], SetLoading(false));
    assert uploading + [SetLoading(false)] == [SetLoading(true), up, SetLoading(false)];
    assert uploading + [ins] + [SetLoading(false)] == [SetLoading(true), up, ins, SetLoading(false)];
    assert uploading + [ins] + [link] + [SetLoading(false)] == [SetLoading(true), up, ins, link, SetLoading(false)];
    assert uploading + [ins] + [link] + [Navigate(FeedRoute)] + [SetLoading(false)]
        == [SetLoading(true), up, ins, link, Navigate(FeedRoute), SetLoading(false)];
  }

  /** The steps run strictly in plan order, and a run stops at its first failing step:
      an aborted run issued exactly the steps up to and including the failing one,
      every earlier step succeeded, and a published run issued all three. Issued
      steps are never withdrawn: the trace of an aborted run still holds the upload
      (and the post insert) that succeeded before the failure. */
  lemma StepsFollowPlan(f: Form, author: UserId, now: nat, backend: Backend, loading: bool)
    ensures var r := Submit(f, author, now, backend, loading);
            match r.verdict
            case Invalid => Issued(r.trace) == []
            case Aborted(s) =>
              && Issued(r.trace) == Plan[..Rank(s) + 1]
              && Fails(backend, s)
              && forall t :: Rank(t) < Rank(s) ==> !Fails(backend, t)
            case Published(_) =>
              && Issued(r.trace) == Plan
              && forall t :: !Fails(backend, t)
  {
    if !MissingInput(f) {
      var file := f.file.value;
      var up := Upload(ImageBucket, StorageName(now, Extension(file.name)), file);
      var ins := InsertPost(PostRow(author, f.selectedStore, f.title, f.body));
      var link := if backend.upload.Ok? && backend.insertPost.Ok?
                  then InsertImage(ImageRow(backend.insertPost.value, backend.upload.value))
                  else InsertImage(ImageRow(0, ""));
      TraceByPath(f, author, now, backend, loading);
      IssuedByPath(up, ins, link);
    }
  }

  /** What a request must carry: the image goes to the post-images bucket under
      `${now}.${ext}` with the chosen file's extension; the post row holds the signed-in
      user as author, the chosen store, and the title and body as entered; the image row
      links the id the post insert returned to the path the upload returned. */
  ghost predicate CarriesInputs(f: Form, author: UserId, now: nat, backend: Backend, e: Effect)
  {
    && (e.Upload? ==>
          && f.file.Some?
          && e == Upload(ImageBucket, StorageName(now, Extension(f.file.value.name)), f.file.value))
    && (e.InsertPost? ==>
          && e.post.authorId == author
          && e.post.storeId == f.selectedStore
          && e.post.title == f.title
          && e.post.body == f.body)
    && (e.InsertImage? ==>
          && backend.upload.Ok?
          && backend.insertPost.Ok?
          && e.link == ImageRow(backend.insertPost.value, backend.upload.value))
  }

  /** Every request the handler issues carries exactly the inputs it should. */
  lemma RequestsCarryInputs(f: Form, author: UserId, now: nat, backend: Backend, loading: bool)
    ensures var r := Submit(f, author, now, backend, loading);
            forall e :: e in r.trace ==> CarriesInputs(f, author, now, backend, e)
  {
    var r := Submit(f, author, now, backend, loading);
    if !MissingInput(f) {
      var file := f.file.value;
      var up := Upload(ImageBucket, StorageName(now, Extension(file.name)), file);
      var ins := InsertPost(PostRow(author, f.selectedStore, f.title, f.body));
      var head := [SetLoading(true), up];
      assert CarriesInputs(f, author, now, backend, up);
      assert CarriesInputs(f, author, now, backend, ins);
      if backend.upload.Err? {
        assert r.trace == head + [SetLoading(false)];
      } else if backend.insertPost.Err? {
        assert r.trace == head + [ins] + [SetLoading(false)];
      } else {
        var link := InsertImage(ImageRow(backend.insertPost.value, backend.upload.value));
        assert CarriesInputs(f, author, now, backend, link);
        if backend.insertImage.Err? {
          assert r.trace == head + [ins] + [link] + [SetLoading(false)];
        } else {
          assert r.trace == head + [ins] + [link] + [Navigate(FeedRoute)] + [SetLoading(false)];
        }
      }
    }
  }

  /** The trace of each path the handler can take once its inputs are complete. */
  lemma TraceByPath(f: Form, author: UserId, now: nat, backend: Backend, loading: bool)
    requires !MissingInput(f)
    ensures var r := Submit(f, author, now, backend, loading);
            var up := Upload(ImageBucket, StorageName(now, Extension(f.file.value.name)), f.file.value);
            var ins := InsertPost(PostRow(author, f.selectedStore, f.title, f.body));
            && (backend.upload.Err? ==> r.trace == [SetLoading(true), up, SetLoading(false)])
            && (backend.upload.Ok? && backend.insertPost.Err? ==>
                  r.trace == [SetLoading(true), up, ins, SetLoading(false)])
            && (backend.upload.Ok? && backend.insertPost.Ok? ==>
                  var link := InsertImage(ImageRow(backend.insertPost.value, backend.upload.value));
                  && (backend.insertImage.Err? ==>
                        r.trace == [SetLoading(true), up, ins, link, SetLoading(false)])
                  && (backend.insertImage.Ok? ==>
                        r.trace == [SetLoading(true), up, ins, link, Navigate(FeedRoute), SetLoading(false)]))
  {
    var up := Upload(ImageBucket, StorageName(now, Extension(f.file.value.name)), f.file.value);
    var ins := InsertPost(PostRow(author, f.selectedStore, f.title, f.body));
    match backend.upload
    case Err(_) =>
      assert [SetLoading(true), up] + [SetLoading(false)] == [SetLoading(true), up, SetLoading(false)];
    case Ok(path) =>
      match backend.insertPost
      case Err(_) =>
        assert [SetLoading(true), up] + [ins] + [SetLoading(false)] == [SetLoading(true), up, ins, SetLoading(false)];
      case Ok(postId) =>
        var link := InsertImage(ImageRow(postId, path));
        match backend.insertImage
        case Err(_) =>
          assert [SetLoading(true), up] + [ins] + [link] + [SetLoading(false)]
              == [SetLoading(true), up, ins, link, SetLoading(false)];
        case Ok(_) =>
          assert [SetLoading(true), up] + [ins] + [link] + [Navigate(FeedRoute)] + [SetLoading(false)]
              == [SetLoading(true), up, ins, link, Navigate(FeedRoute), SetLoading(false)];
  }

  /** `loading` is switched on before the first request and stays on through every
      await: nothing between the first and the last effect touches it, and the last
      effect switches it off. A submission with a missing input neither sets it nor
      issues any request. */
  lemma LoadingAlwaysCleared(f: Form, author: UserId, now: nat, backend: Backend, loading: bool)
    ensures var r := Submit(f, author, now, backend, loading);
            && (SetLoading(true) in r.trace <==> !MissingInput(f))
            && (!MissingInput(f) ==>
                  && !r.loading
                  && r.trace[0] == SetLoading(true)
                  && r.trace[|r.trace| - 1] == SetLoading(false)
                  && forall i :: 0 < i < |r.trace| - 1 ==> !r.trace[i].SetLoading?)
            && (MissingInput(f) ==> Issued(r.trace) == [] && r.loading == loading)
  {
    StepsFollowPlan(f, author, now, backend, loading);
    if !MissingInput(f) {
      TraceByPath(f, author, now, backend, loading);
    }
  }

  /** Navigation to the feed is the handler's last act before the `finally` block: it
      happens only on a published run, right after the image row is inserted and right
      before `loading` goes off, and nowhere else in the trace. */
  lemma NavigationComesLast(f: Form, author: UserId, now: nat, backend: Backend, loading: bool)
    ensures var r := Submit(f, author, now, backend, loading);
            && (forall i :: 0 <= i < |r.trace| && r.trace[i].Navigate? ==>
                  && r.verdict.Published?
                  && i == |r.trace| - 2
                  && r.trace[i] == Navigate(FeedRoute))
            && (r.verdict.Published? ==>
                  && |r.trace| >= 3
                  && r.trace[|r.trace| - 2] == Navigate(FeedRoute)
                  && r.trace[|r.trace| - 3].InsertImage?)
  {
    if !MissingInput(f) {
      TraceByPath(f, author, now, backend, loading);
    }
  }
}
