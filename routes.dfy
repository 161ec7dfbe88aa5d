/** The image router: six routes, each a chain of stages that ends in its controller,
    the single-file upload parser with its MIME filter and size limit, and what the
    stages before the controller make of a request. A request path is the list of its
    segments below the router's mount point (`/` is the empty list). */
module ImageRoutes {
  import opened Wrappers
  import opened Errors
  import Strings
  import Validate
  import Json
  import AuthController
  import AuthMiddleware
  import ImageController

  datatype Verb = Get | Post | Patch | Delete

  /** A pattern segment: a literal, or the `:id` parameter, which matches any non-empty segment. */
  datatype Segment = Lit(s: string) | Id

  datatype Controller =
    | UploadImage | GetImage | ListImages | TransformImage | DeleteImage | UpdateMetadata

  /** One middleware of a route: the auth middleware, the upload parser for one named file
      field, the body validator with its schema, or the controller that answers. */
  datatype Stage =
    | Authenticate
    | SingleFile(field: string)
    | CheckBody(schema: Validate.Rule)
    | Answer(controller: Controller)

  datatype Route = Route(verb: Verb, pattern: seq<Segment>, stages: seq<Stage>)

  /** `limits: { fileSize: 5 * 1024 * 1024 }`. */
  const MaxFileSize: nat := 5 * 1024 * 1024

  const FileTypeMessage := "Only JPEG and PNG images are allowed"

  /** The upload parser's own error for a file over the limit. */
  const TooLargeMessage := "File too large"

  /** The upload parser's own error for a file sent under another field name. */
  const UnexpectedFieldMessage := "Unexpected field"

  /** The router, in declaration order. */
  const Routes: seq<Route> := [
    Route(Post, [], [Authenticate, SingleFile("image"), Answer(UploadImage)]),
    Route(Get, [Id], [Authenticate, Answer(GetImage)]),
    Route(Get, [], [Authenticate, Answer(ListImages)]),
    Route(Post, [Id, Lit("transform")], [Authenticate, CheckBody(Validate.TransformSchema), Answer(TransformImage)]),
    Route(Delete, [Id], [Authenticate, Answer(DeleteImage)]),
    Route(Patch, [Id, Lit("metadata")], [Authenticate, CheckBody(Validate.UpdateMetadataSchema), Answer(UpdateMetadata)])
  ]

  predicate SegmentMatches(p: Segment, s: string)
  {
    match p
    case Lit(l) => s == l
    case Id => s != ""
  }

  predicate Matches(pattern: seq<Segment>, path: seq<string>)
  {
    |pattern| == |path| && forall i :: 0 <= i < |path| ==> SegmentMatches(pattern[i], path[i])
  }

  /** The first route, from index `from` on, whose verb and pattern match the request. */
  function DispatchFrom(verb: Verb, path: seq<string>, from: nat): (r: Option<nat>)
    requires from <= |Routes|
    ensures r.Some? ==> from <= r.value < |Routes|
                        && Routes[r.value].verb == verb && Matches(Routes[r.value].pattern, path)
    ensures r.Some? ==> forall j :: from <= j < r.value ==> !(Routes[j].verb == verb && Matches(Routes[j].pattern, path))
    ensures r.None? ==> forall j :: from <= j < |Routes| ==> !(Routes[j].verb == verb && Matches(Routes[j].pattern, path))
    decreases |Routes| - from
  {
    if from == |Routes| then None
    else if Routes[from].verb == verb && Matches(Routes[from].pattern, path) then Some(from)
    else DispatchFrom(verb, path, from + 1)
  }

  /** The route Express picks for a request: the first one that matches. */
  function Dispatch(verb: Verb, path: seq<string>): Option<nat>
  {
    DispatchFrom(verb, path, 0)
  }

  /** `fileFilter`: the unanchored `/jpeg|jpg|png/` tested against the MIME type. */
  predicate FileFilter(mimeType: string)
  {
    Strings.Contains(mimeType, "jpeg") || Strings.Contains(mimeType, "jpg") || Strings.Contains(mimeType, "png")
  }

  /** A file part of a multipart request, with the form field it was sent under. */
  datatype Part = Part(field: string, file: ImageController.UploadedFile)

  /** `upload.single(field)`: no file leaves `req.file` unset; a file under another field, one
      the filter refuses or one over the size limit is an error; otherwise it becomes `req.file`. */
  function ParseSingle(field: string, part: Option<Part>): (r: Result<Option<ImageController.UploadedFile>, AppError>)
    ensures part.None? ==> r == Success(None)
    ensures r.Success? && part.Some? ==>
              r.value == Some(part.value.file) && part.value.field == field
              && FileFilter(part.value.file.mimeType) && part.value.file.size <= MaxFileSize
    ensures r.Failure? ==> r.error.statusCode.None?
  {
    match part
    case None => Success(None)
    case Some(p) =>
      if p.field != field then Failure(Unexpected(UnexpectedFieldMessage))
      else if !FileFilter(p.file.mimeType) then Failure(Unexpected(FileTypeMessage))
      else if p.file.size > MaxFileSize then Failure(Unexpected(TooLargeMessage))
      else Success(Some(p.file))
  }

  /** What reaches the controller: the authenticated user and the parsed file, if any. */
  datatype Admitted = Admitted(user: AuthMiddleware.Principal, file: Option<ImageController.UploadedFile>)

  /** The request as the stages before the controller see it. */
  datatype Incoming = Incoming(header: Option<string>, body: Json.Value, part: Option<Part>)

  /** The stages before the controller, run in order; the first error goes to the error handler. */
  function Admit(stages: seq<Stage>, req: Incoming, now: int, verify: string -> Option<AuthController.Claims>,
                 users: seq<AuthController.User>, isEmail: string -> bool, admitted: Admitted)
    : Result<Admitted, AppError>
  {
    if stages == [] then Success(admitted)
    else
      match stages[0]
      case Answer(_) => Success(admitted)
      case Authenticate =>
        (match AuthMiddleware.Authorize(req.header, now, verify, users)
         case Failure(e) => Failure(e)
         case Success(u) => Admit(stages[1..], req, now, verify, users, isEmail, admitted.(user := u)))
      case SingleFile(field) =>
        (match ParseSingle(field, req.part)
         case Failure(e) => Failure(e)
         case Success(f) => Admit(stages[1..], req, now, verify, users, isEmail, admitted.(file := f)))
      case CheckBody(schema) =>
        (match Validate.Validate(schema, req.body, isEmail)
         case Some(e) => Failure(e)
         case None => Admit(stages[1..], req, now, verify, users, isEmail, admitted))
  }

  /** A request that has not yet reached any stage. */
  const Nobody := Admitted(AuthMiddleware.Principal(0, "", ""), None)

  // ---------------------------------------------------------------------------
  // Properties of the route table
  // ---------------------------------------------------------------------------

  /** Every route authenticates first and ends in exactly one controller, with nothing after it. */
  lemma EveryRouteAuthenticatesFirst()
    ensures forall i :: 0 <= i < |Routes| ==>
              |Routes[i].stages| >= 2 && Routes[i].stages[0] == Authenticate
              && Routes[i].stages[|Routes[i].stages| - 1].Answer?
              && forall j :: 0 <= j < |Routes[i].stages| - 1 ==> !Routes[i].stages[j].Answer?
  {
  }

  /** The transform and metadata routes validate their bodies between auth and controller,
      and only they validate; only the upload route parses a file, after auth. */
  lemma StagePlacement()
    ensures Routes[3].stages == [Authenticate, CheckBody(Validate.TransformSchema), Answer(TransformImage)]
    ensures Routes[5].stages == [Authenticate, CheckBody(Validate.UpdateMetadataSchema), Answer(UpdateMetadata)]
    ensures Routes[0].stages == [Authenticate, SingleFile("image"), Answer(UploadImage)]
    ensures forall i, j :: 0 <= i < |Routes| && 0 <= j < |Routes[i].stages| && Routes[i].stages[j].CheckBody? ==>
              i == 3 || i == 5
    ensures forall i, j :: 0 <= i < |Routes| && 0 <= j < |Routes[i].stages| && Routes[i].stages[j].SingleFile? ==>
              i == 0
  {
  }

  /** No request matches two routes, so the declaration order never decides between them. */
  lemma {:induction false} RoutesDisjoint(verb: Verb, path: seq<string>, i: nat, j: nat)
    requires i < j < |Routes|
    requires Routes[i].verb == verb && Matches(Routes[i].pattern, path)
    ensures !(Routes[j].verb == verb && Matches(Routes[j].pattern, path))
  {
  }

  /** So the route Express picks is exactly the one that matches. */
  lemma DispatchIsOnlyMatch(verb: Verb, path: seq<string>, i: nat)
    requires i < |Routes|
    ensures Dispatch(verb, path) == Some(i) <==> Routes[i].verb == verb && Matches(Routes[i].pattern, path)
  {
    if Routes[i].verb == verb && Matches(Routes[i].pattern, path) {
      var r := Dispatch(verb, path);
      if r.Some? && r.value < i {
        RoutesDisjoint(verb, path, r.value, i);
      }
    }
  }

  /** Where each request goes: `GET /` lists, `POST /` uploads, and a non-empty `id` selects
      get, delete, transform or metadata; nothing else is routed. */
  lemma DispatchTable(id: string, verb: Verb, path: seq<string>)
    requires id != ""
    ensures Dispatch(Get, []) == Some(2) && Routes[2].stages[1] == Answer(ListImages)
    ensures Dispatch(Post, []) == Some(0)
    ensures Dispatch(Get, [id]) == Some(1)
    ensures Dispatch(Delete, [id]) == Some(4)
    ensures Dispatch(Post, [id, "transform"]) == Some(3)
    ensures Dispatch(Patch, [id, "metadata"]) == Some(5)
    ensures |path| > 2 || (|path| >= 1 && path[0] == "") ==> Dispatch(verb, path).None?
  {
    assert Matches(Routes[1].pattern, [id]);
    assert Matches(Routes[4].pattern, [id]);
    assert Matches(Routes[3].pattern, [id, "transform"]);
    assert Matches(Routes[5].pattern, [id, "metadata"]);
    if |path| > 2 || (|path| >= 1 && path[0] == "") {
      forall j | 0 <= j < |Routes| ensures !Matches(Routes[j].pattern, path) {
        if |path| == |Routes[j].pattern| {
          assert !SegmentMatches(Routes[j].pattern[0], path[0]);
        }
      }
    }
  }

  // ---------------------------------------------------------------------------
  // Properties of the upload parser
  // ---------------------------------------------------------------------------

  /** The filter accepts a MIME type exactly when `jpeg`, `jpg` or `png` occurs anywhere in it. */
  lemma FileFilterOccurs(mimeType: string)
    ensures FileFilter(mimeType) <==>
              exists i :: Strings.OccursAt(mimeType, "jpeg", i) || Strings.OccursAt(mimeType, "jpg", i)
                          || Strings.OccursAt(mimeType, "png", i)
  {
    Strings.ContainsOccurs(mimeType, "jpeg");
    Strings.ContainsOccurs(mimeType, "jpg");
    Strings.ContainsOccurs(mimeType, "png");
  }

  /** JPEG and PNG pass, and so does any type that merely mentions one of the three words. */
  lemma FileFilterUnanchored(prefix: string, suffix: string)
    ensures FileFilter(prefix + "jpeg" + suffix)
    ensures FileFilter(prefix + "png" + suffix)
    ensures FileFilter(prefix + "jpg" + suffix)
  {
    FileFilterOccurs(prefix + "jpeg" + suffix);
    assert Strings.OccursAt(prefix + "jpeg" + suffix, "jpeg", |prefix|);
    FileFilterOccurs(prefix + "png" + suffix);
    assert Strings.OccursAt(prefix + "png" + suffix, "png", |prefix|);
    FileFilterOccurs(prefix + "jpg" + suffix);
    assert Strings.OccursAt(prefix + "jpg" + suffix, "jpg", |prefix|);
  }

  /** A refused type reaches the client as a 500 carrying the filter's message. */
  lemma RefusedTypeIs500(field: string, file: ImageController.UploadedFile)
    requires !FileFilter(file.mimeType)
    ensures ParseSingle(field, Some(Part(field, file))) == Failure(Unexpected(FileTypeMessage))
    ensures HandleError(Unexpected(FileTypeMessage)) == ErrorReply(500, false, FileTypeMessage)
  {
  }

  /** The size limit is 5 MiB, inclusive. */
  lemma SizeLimit(field: string, file: ImageController.UploadedFile)
    requires FileFilter(file.mimeType)
    ensures MaxFileSize == 5242880
    ensures ParseSingle(field, Some(Part(field, file))).Success? <==> file.size <= 5242880
  {
  }

  // ---------------------------------------------------------------------------
  // Properties of the stages before the controller
  // ---------------------------------------------------------------------------

  /** On every route an unauthenticated request gets the auth middleware's error, whatever its
      body or file: validation and upload errors are never reported to it. */
  lemma {:induction false} UnauthenticatedStopsFirst(i: nat, req: Incoming, now: int,
                                                    verify: string -> Option<AuthController.Claims>,
                                                    users: seq<AuthController.User>, isEmail: string -> bool)
    requires i < |Routes|
    requires AuthMiddleware.Authorize(req.header, now, verify, users).Failure?
    ensures Admit(Routes[i].stages, req, now, verify, users, isEmail, Nobody)
              == Failure(AuthMiddleware.Authorize(req.header, now, verify, users).error)
  {
    EveryRouteAuthenticatesFirst();
  }

  /** A transform request reaches its controller exactly when it is authenticated and its body
      satisfies the transform schema; it then carries the authenticated user. */
  lemma {:induction false} TransformAdmission(req: Incoming, now: int, verify: string -> Option<AuthController.Claims>,
                                              users: seq<AuthController.User>, isEmail: string -> bool)
    ensures var a := Admit(Routes[3].stages, req, now, verify, users, isEmail, Nobody);
            a.Success? <==>
              AuthMiddleware.Authorize(req.header, now, verify, users).Success?
              && Validate.Accepts(Validate.TransformSchema, req.body, isEmail)
    ensures var a := Admit(Routes[3].stages, req, now, verify, users, isEmail, Nobody);
            a.Success? ==> a.value.user == AuthMiddleware.Authorize(req.header, now, verify, users).value
  {
    Validate.ValidateSpec(Validate.TransformSchema, req.body, isEmail);
    var s := Routes[3].stages;
    assert s[1..] == [CheckBody(Validate.TransformSchema), Answer(TransformImage)];
    assert s[1..][1..] == [Answer(TransformImage)];
    var auth := AuthMiddleware.Authorize(req.header, now, verify, users);
    if auth.Success? {
      var a := Nobody.(user := auth.value);
      assert Admit(s, req, now, verify, users, isEmail, Nobody) == Admit(s[1..], req, now, verify, users, isEmail, a);
      if Validate.Validate(Validate.TransformSchema, req.body, isEmail).None? {
        assert Admit(s[1..], req, now, verify, users, isEmail, a) == Admit(s[1..][1..], req, now, verify, users, isEmail, a);
      }
    }
  }

  /** A metadata update reaches its controller exactly when it is authenticated and its body
      satisfies the update schema. */
  lemma {:induction false} UpdateMetadataAdmission(req: Incoming, now: int,
                                                   verify: string -> Option<AuthController.Claims>,
                                                   users: seq<AuthController.User>, isEmail: string -> bool)
    ensures Admit(Routes[5].stages, req, now, verify, users, isEmail, Nobody).Success? <==>
              AuthMiddleware.Authorize(req.header, now, verify, users).Success?
              && Validate.Accepts(Validate.UpdateMetadataSchema, req.body, isEmail)
  {
    Validate.ValidateSpec(Validate.UpdateMetadataSchema, req.body, isEmail);
    var s := Routes[5].stages;
    assert s[1..] == [CheckBody(Validate.UpdateMetadataSchema), Answer(UpdateMetadata)];
    assert s[1..][1..] == [Answer(UpdateMetadata)];
    var auth := AuthMiddleware.Authorize(req.header, now, verify, users);
    if auth.Success? {
      var a := Nobody.(user := auth.value);
      assert Admit(s, req, now, verify, users, isEmail, Nobody) == Admit(s[1..], req, now, verify, users, isEmail, a);
      if Validate.Validate(Validate.UpdateMetadataSchema, req.body, isEmail).None? {
        assert Admit(s[1..], req, now, verify, users, isEmail, a) == Admit(s[1..][1..], req, now, verify, users, isEmail, a);
      }
    }
  }

  /** An authenticated upload reaches its controller with the file the parser accepted, or with
      no file when none was sent; a refused file stops it with the parser's error. */
  lemma {:induction false} UploadAdmission(req: Incoming, now: int, verify: string -> Option<AuthController.Claims>,
                                           users: seq<AuthController.User>, isEmail: string -> bool)
    requires AuthMiddleware.Authorize(req.header, now, verify, users).Success?
    ensures var a := Admit(Routes[0].stages, req, now, verify, users, isEmail, Nobody);
            var p := ParseSingle("image", req.part);
            (p.Failure? ==> a == Failure(p.error))
            && (p.Success? ==> a == Success(Admitted(AuthMiddleware.Authorize(req.header, now, verify, users).value,
                                                     p.value)))
  {
    var s := Routes[0].stages;
    assert s[1..] == [SingleFile("image"), Answer(UploadImage)];
    assert s[1..][1..] == [Answer(UploadImage)];
    var a := Nobody.(user := AuthMiddleware.Authorize(req.header, now, verify, users).value);
    assert Admit(s, req, now, verify, users, isEmail, Nobody) == Admit(s[1..], req, now, verify, users, isEmail, a);
    var p := ParseSingle("image", req.part);
    if p.Success? {
      assert Admit(s[1..], req, now, verify, users, isEmail, a)
             == Admit(s[1..][1..], req, now, verify, users, isEmail, a.(file := p.value));
    }
  }
}
