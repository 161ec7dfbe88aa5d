/** `transformImage`: the translation of a transformation descriptor into the
    ordered list of image-host directives, handed to the host's URL builder. */
module ImageService {
  import opened Wrappers
  import opened Json
  import opened Errors

  /** One entry of `transformationOptions`, with the constant fields the service writes. */
  datatype Directive =
    | Resize(width: Option<Value>, height: Option<Value>, crop: string)
    | Crop(width: Option<Value>, height: Option<Value>, crop: string, x: Option<Value>, y: Option<Value>)
    | Rotate(angle: Option<Value>)
    | Watermark(overlay: Option<Value>, gravity: string, opacity: real)
    | Effect(effect: string)
    | Format(fetchFormat: Option<Value>)

  /** The operations a descriptor can request, in the order the service emits them. */
  datatype Operation = ResizeOp | CropOp | RotateOp | WatermarkOp | GrayscaleOp | SepiaOp | FormatOp

  const Order: seq<Operation> := [ResizeOp, CropOp, RotateOp, WatermarkOp, GrayscaleOp, SepiaOp, FormatOp]

  const WatermarkOpacity: real := 0.5

  const TransformFailed := "Failed to transform image"

  /** The position of an operation in `Order`. */
  function Rank(op: Operation): (r: nat)
    ensures r < |Order| && Order[r] == op
  {
    match op
    case ResizeOp => 0
    case CropOp => 1
    case RotateOp => 2
    case WatermarkOp => 3
    case GrayscaleOp => 4
    case SepiaOp => 5
    case FormatOp => 6
  }

  /** The six properties of a descriptor the service reads, `None` for `undefined`. */
  datatype Descriptor = Descriptor(resize: Option<Value>, crop: Option<Value>, rotate: Option<Value>,
                                   watermark: Option<Value>, filters: Option<Value>, format: Option<Value>)

  function Read(t: Value): Descriptor
  {
    Descriptor(Member(t, "resize"), Member(t, "crop"), Member(t, "rotate"),
               Member(t, "watermark"), Member(t, "filters"), Member(t, "format"))
  }

  /** `o.b`, where `o` is only dereferenced when it is defined. */
  function Sub(o: Option<Value>, b: string): Option<Value>
  {
    match o
    case Some(v) => Member(v, b)
    case None => None
  }

  /** `t.a.b`. */
  function Path(t: Value, a: string, b: string): Option<Value>
  {
    Sub(Member(t, a), b)
  }

  /** The truthiness test the service applies before emitting `op`. */
  predicate Requested(d: Descriptor, op: Operation)
  {
    match op
    case ResizeOp => IsSet(d.resize)
    case CropOp => IsSet(d.crop)
    case RotateOp => IsSet(d.rotate)
    case WatermarkOp => IsSet(d.watermark)
    case GrayscaleOp => IsSet(d.filters) && IsSet(Sub(d.filters, "grayscale"))
    case SepiaOp => IsSet(d.filters) && IsSet(Sub(d.filters, "sepia"))
    case FormatOp => IsSet(d.format)
  }

  /** The object the service pushes for `op`. */
  function Emit(d: Descriptor, op: Operation): Directive
  {
    match op
    case ResizeOp => Resize(Sub(d.resize, "width"), Sub(d.resize, "height"), "fill")
    case CropOp =>
      Crop(Sub(d.crop, "width"), Sub(d.crop, "height"), "crop", Sub(d.crop, "x"), Sub(d.crop, "y"))
    case RotateOp => Rotate(d.rotate)
    case WatermarkOp => Watermark(Sub(d.watermark, "text"), "center", WatermarkOpacity)
    case GrayscaleOp => Effect("grayscale")
    case SepiaOp => Effect("sepia")
    case FormatOp => Format(d.format)
  }

  /** Which operation a directive stands for. */
  function OperationOf(d: Directive): Operation
  {
    match d
    case Resize(_, _, _) => ResizeOp
    case Crop(_, _, _, _, _) => CropOp
    case Rotate(_) => RotateOp
    case Watermark(_, _, _) => WatermarkOp
    case Effect(e) => if e == "grayscale" then GrayscaleOp else SepiaOp
    case Format(_) => FormatOp
  }

  /** What one guarded `push` contributes. */
  function Step(d: Descriptor, op: Operation): seq<Directive>
  {
    if Requested(d, op) then [Emit(d, op)] else []
  }

  /** The seven guarded pushes of the service, in its order. */
  function Plan(d: Descriptor): seq<Directive>
  {
    Step(d, ResizeOp) + Step(d, CropOp) + Step(d, RotateOp) + Step(d, WatermarkOp)
      + Step(d, GrayscaleOp) + Step(d, SepiaOp) + Step(d, FormatOp)
  }

  /** The directive list for a descriptor. */
  function Directives(t: Value): seq<Directive>
  {
    Plan(Read(t))
  }

  /** The service's answer once the URL builder has run. The promise stated is that every
      failure of the builder, whatever it threw, reaches the caller as the single message
      `TransformFailed`, and a success passes the URL through unchanged. */
  function Outcome(u: Option<string>): (r: Result<string, AppError>)
    ensures r.Success? <==> u.Some?
    ensures r.Success? ==> r.value == u.value
    ensures r.Failure? ==> r.error == Unexpected(TransformFailed)
  {
    match u
    case Some(s) => Success(s)
    case None => Failure(Unexpected(TransformFailed))
  }

  /** `transformImage(cloudinaryId, transformations)`. `url` is the image host's URL builder
      (`None` when it throws); reading a property of `undefined` or `null` throws too.
      Every failure is reported as the one message 'Failed to transform image'. */
  method TransformImage(cloudinaryId: string, transformations: Option<Value>,
                        url: (string, seq<Directive>) -> Option<string>)
    returns (r: Result<string, AppError>)
    ensures transformations.None? || transformations == Some(Null) ==> r == Failure(Unexpected(TransformFailed))
    ensures transformations.Some? && transformations != Some(Null) ==>
              r == Outcome(url(cloudinaryId, Directives(transformations.value)))
  {
    if transformations.None? || transformations == Some(Null) {
      return Failure(Unexpected(TransformFailed));
    }
    var t := transformations.value;
    ghost var d := Read(t);
    var options: seq<Directive> := [];
    if IsSet(Member(t, "resize")) {
      options := options + [Resize(Path(t, "resize", "width"), Path(t, "resize", "height"), "fill")];
    }
    ghost var upTo := options;
    assert upTo == Step(d, ResizeOp);
    if IsSet(Member(t, "crop")) {
      options := options + [Crop(Path(t, "crop", "width"), Path(t, "crop", "height"), "crop",
                                 Path(t, "crop", "x"), Path(t, "crop", "y"))];
    }
    assert options == upTo + Step(d, CropOp);
    upTo := options;
    if IsSet(Member(t, "rotate")) {
      options := options + [Rotate(Member(t, "rotate"))];
    }
    assert options == upTo + Step(d, RotateOp);
    upTo := options;
    if IsSet(Member(t, "watermark")) {
      options := options + [Watermark(Path(t, "watermark", "text"), "center", WatermarkOpacity)];
    }
    assert options == upTo + Step(d, WatermarkOp);
    upTo := options;
    if IsSet(Member(t, "filters")) {
      if IsSet(Path(t, "filters", "grayscale")) {
        options := options + [Effect("grayscale")];
      }
      ghost var gray := options;
      assert gray == upTo + Step(d, GrayscaleOp);
      if IsSet(Path(t, "filters", "sepia")) {
        options := options + [Effect("sepia")];
      }
      assert options == gray + Step(d, SepiaOp);
    }
    assert options == upTo + Step(d, GrayscaleOp) + Step(d, SepiaOp);
    upTo := options;
    if IsSet(Member(t, "format")) {
      options := options + [Format(Member(t, "format"))];
    }
    assert options == upTo + Step(d, FormatOp);
    r := Outcome(url(cloudinaryId, options));
  }

  // ---------------------------------------------------------------------------
  // The shape of the directive list, proved once for any guarded step function
  // ---------------------------------------------------------------------------

  /** The concatenation of `step(op)` over `ops`, in the order of `ops`. */
  function Collect(step: Operation -> seq<Directive>, ops: seq<Operation>): seq<Directive>
  {
    if ops == [] then [] else step(ops[0]) + Collect(step, ops[1..])
  }

  /** Each operation contributes at most one directive, and only a directive for itself. */
  predicate GuardedSteps(step: Operation -> seq<Directive>)
  {
    forall op :: |step(op)| <= 1 && (step(op) != [] ==> OperationOf(step(op)[0]) == op)
  }

  lemma CollectOrder(step: Operation -> seq<Directive>)
    ensures Collect(step, Order) == step(ResizeOp) + step(CropOp) + step(RotateOp) + step(WatermarkOp)
                                     + step(GrayscaleOp) + step(SepiaOp) + step(FormatOp)
  {
    var o := Order;
    assert Collect(step, o[7..]) == [];
    assert Collect(step, o[6..]) == step(FormatOp) + Collect(step, o[7..]);
    assert Collect(step, o[5..]) == step(SepiaOp) + Collect(step, o[6..]);
    assert Collect(step, o[4..]) == step(GrayscaleOp) + Collect(step, o[5..]);
    assert Collect(step, o[3..]) == step(WatermarkOp) + Collect(step, o[4..]);
    assert Collect(step, o[2..]) == step(RotateOp) + Collect(step, o[3..]);
    assert Collect(step, o[1..]) == step(CropOp) + Collect(step, o[2..]);
  }

  /** Every collected directive is the one directive its operation's step yields, for an
      operation of the list; and every operation of the list with a nonempty step is represented. */
  lemma {:induction false} CollectMembers(step: Operation -> seq<Directive>, ops: seq<Operation>)
    requires GuardedSteps(step)
    ensures forall i :: 0 <= i < |Collect(step, ops)| ==>
      OperationOf(Collect(step, ops)[i]) in ops && step(OperationOf(Collect(step, ops)[i])) == [Collect(step, ops)[i]]
    ensures forall op :: op in ops && step(op) != [] ==>
      exists i :: 0 <= i < |Collect(step, ops)| && OperationOf(Collect(step, ops)[i]) == op
  {
    if ops != [] {
      CollectMembers(step, ops[1..]);
      var head, rest := step(ops[0]), Collect(step, ops[1..]);
      assert Collect(step, ops) == head + rest;
      forall op | op in ops && step(op) != []
        ensures exists i :: 0 <= i < |Collect(step, ops)| && OperationOf(Collect(step, ops)[i]) == op
      {
        if op == ops[0] {
          assert OperationOf(Collect(step, ops)[0]) == op;
        } else {
          var i :| 0 <= i < |rest| && OperationOf(rest[i]) == op;
          assert Collect(step, ops)[|head| + i] == rest[i];
        }
      }
    }
  }

  /** Collecting over a list sorted by rank gives directives sorted strictly by rank. */
  lemma {:induction false} CollectSorted(step: Operation -> seq<Directive>, ops: seq<Operation>)
    requires GuardedSteps(step)
    requires forall i, j :: 0 <= i < j < |ops| ==> Rank(ops[i]) < Rank(ops[j])
    ensures forall i, j :: 0 <= i < j < |Collect(step, ops)| ==>
      Rank(OperationOf(Collect(step, ops)[i])) < Rank(OperationOf(Collect(step, ops)[j]))
  {
    if ops != [] {
      CollectSorted(step, ops[1..]);
      CollectMembers(step, ops[1..]);
      var rest := Collect(step, ops[1..]);
      forall k | 0 <= k < |rest| ensures Rank(ops[0]) < Rank(OperationOf(rest[k])) {
        var m :| 0 <= m < |ops[1..]| && ops[1..][m] == OperationOf(rest[k]);
        assert ops[m + 1] == OperationOf(rest[k]);
      }
      assert Collect(step, ops) == step(ops[0]) + rest;
    }
  }

  // ---------------------------------------------------------------------------
  // Properties of the directive list
  // ---------------------------------------------------------------------------

  /** Each step yields at most the one directive of its own operation. */
  lemma StepGuarded(d: Descriptor, op: Operation)
    ensures |Step(d, op)| <= 1
    ensures Step(d, op) != [] ==> OperationOf(Step(d, op)[0]) == op
  {
    match op
    case ResizeOp =>
    case CropOp =>
    case RotateOp =>
    case WatermarkOp =>
    case GrayscaleOp =>
    case SepiaOp => assert "sepia" != "grayscale" by { assert "sepia"[0] != "grayscale"[0]; }
    case FormatOp =>
  }

  /** `Order` lists each operation at its own rank. */
  lemma OrderRanks()
    ensures forall i, j :: 0 <= i < j < |Order| ==> Rank(Order[i]) < Rank(Order[j])
  {
    assert forall i :: 0 <= i < |Order| ==> Rank(Order[i]) == i;
  }

  lemma DirectivesCollect(d: Descriptor)
    ensures GuardedSteps(op => Step(d, op))
    ensures Plan(d) == Collect(op => Step(d, op), Order)
  {
    forall op ensures |Step(d, op)| <= 1 && (Step(d, op) != [] ==> OperationOf(Step(d, op)[0]) == op) {
      StepGuarded(d, op);
    }
    CollectOrder(op => Step(d, op));
  }

  /** Directives come out in the fixed order resize, crop, rotate, watermark, grayscale,
      sepia, format, and each operation at most once; so there are at most seven. */
  lemma DirectivesInOrder(d: Descriptor)
    ensures forall i, j :: 0 <= i < j < |Plan(d)| ==>
      Rank(OperationOf(Plan(d)[i])) < Rank(OperationOf(Plan(d)[j]))
    ensures |Plan(d)| <= 7
  {
    DirectivesCollect(d);
    OrderRanks();
    CollectSorted(op => Step(d, op), Order);
  }

  /** Each directive is the object the service builds for its operation. */
  lemma DirectivesEmitted(d: Descriptor)
    ensures forall i :: 0 <= i < |Plan(d)| ==> Plan(d)[i] == Emit(d, OperationOf(Plan(d)[i]))
  {
    DirectivesCollect(d);
    CollectMembers(op => Step(d, op), Order);
  }

  /** An operation yields a directive exactly when the descriptor requests it, by the
      truthiness test of the service. */
  lemma DirectivesExactly(d: Descriptor, op: Operation)
    ensures Requested(d, op) <==> exists i :: 0 <= i < |Plan(d)| && OperationOf(Plan(d)[i]) == op
  {
    DirectivesCollect(d);
    CollectMembers(op => Step(d, op), Order);
    var ds := Plan(d);
    assert Order[Rank(op)] == op;
    if exists i :: 0 <= i < |ds| && OperationOf(ds[i]) == op {
      var i :| 0 <= i < |ds| && OperationOf(ds[i]) == op;
      assert Step(d, op) == [ds[i]];
    }
  }

  /** A descriptor requesting nothing (an empty object, say) yields no directive. */
  lemma NothingRequested(d: Descriptor)
    requires forall op :: !Requested(d, op)
    ensures Plan(d) == []
  {
  }

  /** A rotation of 0 is falsy and produces no directive. */
  lemma RotateZeroIgnored(t: Value)
    requires Member(t, "rotate") == Some(Num(0))
    ensures forall i :: 0 <= i < |Directives(t)| ==> OperationOf(Directives(t)[i]) != RotateOp
  {
    DirectivesExactly(Read(t), RotateOp);
  }

  /** With both filters set, grayscale comes before sepia. */
  lemma GrayscaleBeforeSepia(d: Descriptor)
    requires Requested(d, GrayscaleOp) && Requested(d, SepiaOp)
    ensures exists i, j :: 0 <= i < j < |Plan(d)| && Plan(d)[i] == Effect("grayscale") && Plan(d)[j] == Effect("sepia")
  {
    DirectivesExactly(d, GrayscaleOp);
    DirectivesExactly(d, SepiaOp);
    DirectivesEmitted(d);
    DirectivesInOrder(d);
    var ds := Plan(d);
    var i :| 0 <= i < |ds| && OperationOf(ds[i]) == GrayscaleOp;
    var j :| 0 <= j < |ds| && OperationOf(ds[j]) == SepiaOp;
  }

  /** The directive a resize or a crop request produces. */
  lemma ResizeAndCropDirectives(t: Value, w: Value, h: Value, x: Value, y: Value)
    requires Member(t, "resize") == Some(Obj([Field("width", w), Field("height", h)]))
    requires Member(t, "crop") == Some(Obj([Field("width", w), Field("height", h), Field("x", x), Field("y", y)]))
    ensures |Directives(t)| >= 2
    ensures Directives(t)[0] == Resize(Some(w), Some(h), "fill")
    ensures Directives(t)[1] == Crop(Some(w), Some(h), "crop", Some(x), Some(y))
  {
    var d := Read(t);
    var r := [Field("width", w), Field("height", h)];
    assert r[1..] == [Field("height", h)];
    assert Lookup(r, "height") == Some(h);
    var c := [Field("width", w), Field("height", h), Field("x", x), Field("y", y)];
    assert c[1..] == [Field("height", h), Field("x", x), Field("y", y)];
    assert c[1..][1..] == [Field("x", x), Field("y", y)];
    assert c[1..][1..][1..] == [Field("y", y)];
    assert Lookup(c[1..][1..], "y") == Some(y);
    assert Lookup(c, "y") == Some(y);
    assert Lookup(c[1..][1..], "x") == Some(x);
    assert Lookup(c, "x") == Some(x);
    assert Lookup(c, "height") == Some(h);
    assert Step(d, ResizeOp) == [Resize(Some(w), Some(h), "fill")];
    assert Step(d, CropOp) == [Crop(Some(w), Some(h), "crop", Some(x), Some(y))];
  }

  /** The directive a rotate, a watermark or a format request produces. */
  lemma SingleDirectives(d: Descriptor, op: Operation, v: Value)
    requires Truthy(v)
    requires op == RotateOp ==> d.rotate == Some(v)
    requires op == WatermarkOp ==> d.watermark == Some(Obj([Field("text", v)]))
    requires op == FormatOp ==> d.format == Some(v)
    requires op in {RotateOp, WatermarkOp, FormatOp}
    requires forall other :: other != op ==> !Requested(d, other)
    ensures Plan(d) == [if op == RotateOp then Rotate(Some(v))
                        else if op == WatermarkOp then Watermark(Some(v), "center", 0.5)
                        else Format(Some(v))]
  {
  }

  /** The order in which the client listed the operations does not matter to the directives. */
  lemma FieldOrderIrrelevant(fs: seq<Field>, gs: seq<Field>)
    requires SameProperties(fs, gs)
    ensures Directives(Obj(fs)) == Directives(Obj(gs))
  {
    LookupPermutation(fs, gs, "resize");
    LookupPermutation(fs, gs, "crop");
    LookupPermutation(fs, gs, "rotate");
    LookupPermutation(fs, gs, "watermark");
    LookupPermutation(fs, gs, "filters");
    LookupPermutation(fs, gs, "format");
    assert Read(Obj(fs)) == Read(Obj(gs));
  }
}
