/** Request-body validation: the four object schemas as values of a small rule
    language, a checker that collects every violation (validation does not stop
    at the first one), and the `validate` middleware that turns a non-empty list
    of violations into a 400 error whose message joins them with ", ".
    Whether a string is an email address is the parameter `isEmail`. */
module Validate {
  import opened Wrappers
  import opened Json
  import opened Errors
  import Strings

  /** A property's schema: a string (with an optional minimum length, an optional email
      check and an optional list of the only values allowed), a number, a boolean, or an
      object whose declared keys are checked in order and which refuses undeclared keys. */
  datatype Rule =
    | StringRule(minLength: nat, email: bool, allowed: seq<string>)
    | NumberRule
    | BooleanRule
    | ObjectRule(keys: seq<Key>, minKeys: nat)

  datatype Key = Key(name: string, rule: Rule, required: bool)

  /** `register`: username (at least 3 characters), email and password (at least 6), all required. */
  const RegisterSchema := ObjectRule([
    Key("username", StringRule(3, false, []), true),
    Key("email", StringRule(0, true, []), true),
    Key("password", StringRule(6, false, []), true)], 0)

  /** `login`: email and password, both required. */
  const LoginSchema := ObjectRule([
    Key("email", StringRule(0, true, []), true),
    Key("password", StringRule(0, false, []), true)], 0)

  const FormatsAllowed := ["jpg", "png", "webp"]

  /** `resize`: optional numeric width and height. */
  const ResizeRule := ObjectRule([Key("width", NumberRule, false), Key("height", NumberRule, false)], 0)

  /** `crop`: optional numeric width, height, x and y. */
  const CropRule := ObjectRule([Key("width", NumberRule, false), Key("height", NumberRule, false),
                                Key("x", NumberRule, false), Key("y", NumberRule, false)], 0)

  /** `watermark`: an optional text. */
  const WatermarkRule := ObjectRule([Key("text", StringRule(0, false, []), false)], 0)

  /** `filters`: optional grayscale and sepia switches. */
  const FiltersRule := ObjectRule([Key("grayscale", BooleanRule, false), Key("sepia", BooleanRule, false)], 0)

  /** The descriptor of the transform request. */
  const DescriptorRule := ObjectRule([
    Key("resize", ResizeRule, false),
    Key("crop", CropRule, false),
    Key("rotate", NumberRule, false),
    Key("watermark", WatermarkRule, false),
    Key("filters", FiltersRule, false),
    Key("format", StringRule(0, false, FormatsAllowed), false)], 1)

  /** `transform`: a required descriptor with at least one key. */
  const TransformSchema := ObjectRule([Key("transformations", DescriptorRule, true)], 0)

  /** The metadata patch of the update request. */
  const MetadataRule := ObjectRule([
    Key("originalName", StringRule(0, false, []), false),
    Key("description", StringRule(0, false, []), false)], 1)

  /** `updateMetadata`: an optional metadata patch with at least one key. */
  const UpdateMetadataSchema := ObjectRule([Key("metadata", MetadataRule, false)], 0)

  /** How a property is named in a message: its dotted path in double quotes, `"value"` for the body itself. */
  function Label(path: seq<string>): string
  {
    "\"" + (if path == [] then "value" else Strings.Join(path, ".")) + "\""
  }

  /** The violations of `v` against `r`, in the order they are reported. */
  function Check(r: Rule, v: Value, path: seq<string>, isEmail: string -> bool): seq<string>
    decreases r
  {
    match r
    case StringRule(minLength, email, allowed) =>
      if allowed != [] && v.Str? && v.s in allowed then []
      else
        (if allowed != [] then [Label(path) + " must be one of [" + Strings.Join(allowed, ", ") + "]"] else [])
        + (if !v.Str? then [Label(path) + " must be a string"]
           else if v.s == "" then [Label(path) + " is not allowed to be empty"]
           else
             (if email && !isEmail(v.s) then [Label(path) + " must be a valid email"] else [])
             + (if |v.s| < minLength
                then [Label(path) + " length must be at least " + NatToString(minLength) + " characters long"]
                else []))
    case NumberRule => if v.Num? then [] else [Label(path) + " must be a number"]
    case BooleanRule => if v.Bool? then [] else [Label(path) + " must be a boolean"]
    case ObjectRule(keys, minKeys) =>
      if !v.Obj? then [Label(path) + " must be of type object"]
      else
        var errors := CheckKeys(keys, v.fields, path, isEmail) + Unknown(v.fields, keys, path);
        if errors != [] then errors
        else if |v.fields| < minKeys then
          [Label(path) + " must have at least " + NatToString(minKeys) + " key" + (if minKeys == 1 then "" else "s")]
        else []
  }

  /** The violations of the declared keys, key by key in declaration order. */
  function CheckKeys(keys: seq<Key>, fs: seq<Field>, path: seq<string>, isEmail: string -> bool): seq<string>
    decreases keys
  {
    if keys == [] then []
    else CheckKey(keys[0], fs, path, isEmail) + CheckKeys(keys[1..], fs, path, isEmail)
  }

  /** A missing key is a violation only when it is required; a present one is checked against its rule. */
  function CheckKey(k: Key, fs: seq<Field>, path: seq<string>, isEmail: string -> bool): seq<string>
    decreases k
  {
    match Lookup(fs, k.name)
    case None => if k.required then [RequiredMessage(path + [k.name])] else []
    case Some(v) => Check(k.rule, v, path + [k.name], isEmail)
  }

  /** The message for a required property that is missing. */
  function RequiredMessage(path: seq<string>): string
  {
    Label(path) + " is required"
  }

  function Names(keys: seq<Key>): (ns: seq<string>)
    ensures |ns| == |keys| && forall i :: 0 <= i < |keys| ==> ns[i] == keys[i].name
  {
    if keys == [] then [] else [keys[0].name] + Names(keys[1..])
  }

  /** One violation per undeclared property, in the object's own order. */
  function Unknown(fs: seq<Field>, keys: seq<Key>, path: seq<string>): seq<string>
  {
    if fs == [] then []
    else
      (if fs[0].key in Names(keys) then [] else [Label(path + [fs[0].key]) + " is not allowed"])
      + Unknown(fs[1..], keys, path)
  }

  /** `validate(schema)` on a body: no error, or a 400 whose message lists every violation. */
  function Validate(schema: Rule, body: Value, isEmail: string -> bool): Option<AppError>
  {
    var messages := Check(schema, body, [], isEmail);
    if messages == [] then None else Some(Raise(400, Strings.Join(messages, ", ")))
  }

  // ---------------------------------------------------------------------------
  // What the checker accepts
  // ---------------------------------------------------------------------------

  /** Whether `v` satisfies `r`, stated without messages. */
  predicate Accepts(r: Rule, v: Value, isEmail: string -> bool)
    decreases r
  {
    match r
    case StringRule(minLength, email, allowed) =>
      if allowed != [] then v.Str? && v.s in allowed
      else v.Str? && v.s != "" && (email ==> isEmail(v.s)) && |v.s| >= minLength
    case NumberRule => v.Num?
    case BooleanRule => v.Bool?
    case ObjectRule(keys, minKeys) =>
      v.Obj? && AcceptsKeys(keys, v.fields, isEmail)
      && (forall i :: 0 <= i < |v.fields| ==> v.fields[i].key in Names(keys))
      && |v.fields| >= minKeys
  }

  predicate AcceptsKeys(keys: seq<Key>, fs: seq<Field>, isEmail: string -> bool)
    decreases keys
  {
    keys != [] ==> AcceptsKey(keys[0], fs, isEmail) && AcceptsKeys(keys[1..], fs, isEmail)
  }

  predicate AcceptsKey(k: Key, fs: seq<Field>, isEmail: string -> bool)
    decreases k
  {
    match Lookup(fs, k.name)
    case None => !k.required
    case Some(v) => Accepts(k.rule, v, isEmail)
  }

  /** The checker reports nothing exactly when the value satisfies the rule. */
  lemma {:induction false} CheckAccepts(r: Rule, v: Value, path: seq<string>, isEmail: string -> bool)
    ensures Check(r, v, path, isEmail) == [] <==> Accepts(r, v, isEmail)
    decreases r
  {
    match r
    case StringRule(_, _, _) =>
    case NumberRule =>
    case BooleanRule =>
    case ObjectRule(keys, minKeys) =>
      if v.Obj? {
        CheckKeysAccepts(keys, v.fields, path, isEmail);
        UnknownEmpty(v.fields, keys, path);
      }
  }

  lemma {:induction false} CheckKeysAccepts(keys: seq<Key>, fs: seq<Field>, path: seq<string>, isEmail: string -> bool)
    ensures CheckKeys(keys, fs, path, isEmail) == [] <==> AcceptsKeys(keys, fs, isEmail)
    decreases keys
  {
    if keys != [] {
      var k := keys[0];
      CheckKeysAccepts(keys[1..], fs, path, isEmail);
      match Lookup(fs, k.name)
      case None =>
      case Some(v) => CheckAccepts(k.rule, v, path + [k.name], isEmail);
    }
  }

  lemma {:induction false} UnknownEmpty(fs: seq<Field>, keys: seq<Key>, path: seq<string>)
    ensures Unknown(fs, keys, path) == [] <==> forall i :: 0 <= i < |fs| ==> fs[i].key in Names(keys)
  {
    if fs != [] {
      UnknownEmpty(fs[1..], keys, path);
      assert forall i :: 1 <= i < |fs| ==> fs[i] == fs[1..][i - 1];
    }
  }

  /** The declared keys are satisfied exactly when each of them is. */
  lemma {:induction false} AcceptsKeysEach(keys: seq<Key>, fs: seq<Field>, isEmail: string -> bool)
    ensures AcceptsKeys(keys, fs, isEmail) <==> forall i :: 0 <= i < |keys| ==> AcceptsKey(keys[i], fs, isEmail)
    decreases keys
  {
    if keys != [] {
      AcceptsKeysEach(keys[1..], fs, isEmail);
      assert forall i :: 1 <= i < |keys| ==> keys[i] == keys[1..][i - 1];
    }
  }

  /** The middleware passes the request on exactly when the body satisfies the schema, and
      otherwise reports a 400 carrying all the messages joined by ", ". */
  lemma ValidateSpec(schema: Rule, body: Value, isEmail: string -> bool)
    ensures Validate(schema, body, isEmail).None? <==> Accepts(schema, body, isEmail)
    ensures Validate(schema, body, isEmail).Some? ==>
              Validate(schema, body, isEmail).value ==
                Raise(400, Strings.Join(Check(schema, body, [], isEmail), ", "))
  {
    CheckAccepts(schema, body, [], isEmail);
  }

  // ---------------------------------------------------------------------------
  // The four schemas, spelled out
  // ---------------------------------------------------------------------------

  /** A string property present with a non-empty value of at least `n` characters. */
  predicate StringAtLeast(fs: seq<Field>, name: string, n: nat)
  {
    var v := Lookup(fs, name);
    v.Some? && v.value.Str? && v.value.s != "" && |v.value.s| >= n
  }

  /** An object passes exactly when each declared key does, it has no other keys, and it has
      enough of them. */
  lemma AcceptsObject(keys: seq<Key>, minKeys: nat, fs: seq<Field>, isEmail: string -> bool)
    ensures Accepts(ObjectRule(keys, minKeys), Obj(fs), isEmail) <==>
              (forall i :: 0 <= i < |keys| ==> AcceptsKey(keys[i], fs, isEmail))
              && (forall i :: 0 <= i < |fs| ==> fs[i].key in Names(keys))
              && |fs| >= minKeys
  {
    AcceptsKeysEach(keys, fs, isEmail);
  }

  /** A present declared key passes when its value satisfies the key's rule. */
  lemma KeyAccepted(k: Key, fs: seq<Field>, v: Value, isEmail: string -> bool)
    requires AcceptsKey(k, fs, isEmail) && Lookup(fs, k.name) == Some(v)
    ensures Accepts(k.rule, v, isEmail)
  {
  }

  /** Only an object satisfies an object rule. */
  lemma ObjectShape(keys: seq<Key>, minKeys: nat, v: Value, isEmail: string -> bool)
    requires Accepts(ObjectRule(keys, minKeys), v, isEmail)
    ensures v == Obj(v.fields)
  {
  }

  /** A declared string key without a list of allowed values. */
  lemma StringKey(name: string, n: nat, email: bool, required: bool, fs: seq<Field>, isEmail: string -> bool)
    ensures AcceptsKey(Key(name, StringRule(n, email, []), required), fs, isEmail) <==>
              (Lookup(fs, name).None? && !required)
              || (StringAtLeast(fs, name, n) && (email ==> isEmail(Lookup(fs, name).value.s)))
  {
  }

  /** Registration needs exactly the declared fields, a username of at least 3 characters,
      an email address and a password of at least 6 characters. */
  lemma RegisterRules(fs: seq<Field>, isEmail: string -> bool)
    ensures Accepts(RegisterSchema, Obj(fs), isEmail) <==>
              StringAtLeast(fs, "username", 3)
              && StringAtLeast(fs, "email", 0) && isEmail(Lookup(fs, "email").value.s)
              && StringAtLeast(fs, "password", 6)
              && forall i :: 0 <= i < |fs| ==> fs[i].key in ["username", "email", "password"]
  {
    var keys := RegisterSchema.keys;
    AcceptsObject(keys, 0, fs, isEmail);
    StringKey("username", 3, false, true, fs, isEmail);
    StringKey("email", 0, true, true, fs, isEmail);
    StringKey("password", 6, false, true, fs, isEmail);
    assert Names(keys) == ["username", "email", "password"];
  }

  /** Login needs exactly an email address and a non-empty password. */
  lemma LoginRules(fs: seq<Field>, isEmail: string -> bool)
    ensures Accepts(LoginSchema, Obj(fs), isEmail) <==>
              StringAtLeast(fs, "email", 0) && isEmail(Lookup(fs, "email").value.s)
              && StringAtLeast(fs, "password", 0)
              && forall i :: 0 <= i < |fs| ==> fs[i].key in ["email", "password"]
  {
    var keys := LoginSchema.keys;
    AcceptsObject(keys, 0, fs, isEmail);
    StringKey("email", 0, true, true, fs, isEmail);
    StringKey("password", 0, false, true, fs, isEmail);
    assert Names(keys) == ["email", "password"];
  }

  /** The six operations a descriptor may name. */
  lemma DescriptorNames()
    ensures Names(DescriptorRule.keys) == ["resize", "crop", "rotate", "watermark", "filters", "format"]
  {
  }

  /** Every key of the object is one of `names`. */
  predicate OnlyKeys(fs: seq<Field>, names: seq<string>)
  {
    forall i :: 0 <= i < |fs| ==> fs[i].key in names
  }

  /** An object with keys among `names`, each of which, when present, holds a number. */
  predicate Numbers(v: Value, names: seq<string>)
  {
    v.Obj? && OnlyKeys(v.fields, names)
    && forall n :: n in names && Lookup(v.fields, n).Some? ==> Lookup(v.fields, n).value.Num?
  }

  /** An object with keys among `names`, each of which, when present, holds a boolean. */
  predicate Switches(v: Value, names: seq<string>)
  {
    v.Obj? && OnlyKeys(v.fields, names)
    && forall n :: n in names && Lookup(v.fields, n).Some? ==> Lookup(v.fields, n).value.Bool?
  }

  /** An object whose only possible key is `text`, a non-empty string when present. */
  predicate Watermark(v: Value)
  {
    v.Obj? && OnlyKeys(v.fields, ["text"])
    && (Lookup(v.fields, "text").Some? ==> StringAtLeast(v.fields, "text", 0))
  }

  /** An accepted transformation descriptor: an object with at least one key, only the six
      operations as keys, and each operation present in its own shape. */
  predicate Descriptor(t: Value)
  {
    t.Obj? && |t.fields| >= 1
    && OnlyKeys(t.fields, ["resize", "crop", "rotate", "watermark", "filters", "format"])
    && Operations(t.fields)
  }

  /** Each operation, when present: resize and crop with numeric dimensions, a numeric rotate,
      a watermark with an optional non-empty text, boolean filters, and an allowed format. */
  predicate Operations(fs: seq<Field>)
  {
    (Lookup(fs, "resize").Some? ==> Numbers(Lookup(fs, "resize").value, ["width", "height"]))
    && (Lookup(fs, "crop").Some? ==> Numbers(Lookup(fs, "crop").value, ["width", "height", "x", "y"]))
    && (Lookup(fs, "rotate").Some? ==> Lookup(fs, "rotate").value.Num?)
    && (Lookup(fs, "watermark").Some? ==> Watermark(Lookup(fs, "watermark").value))
    && (Lookup(fs, "filters").Some? ==> Switches(Lookup(fs, "filters").value, ["grayscale", "sepia"]))
    && (Lookup(fs, "format").Some? ==> Lookup(fs, "format").value.Str? && Lookup(fs, "format").value.s in FormatsAllowed)
  }

  /** An optional key passes exactly when it is absent or its value satisfies its rule. */
  lemma OptionalKey(name: string, r: Rule, fs: seq<Field>, isEmail: string -> bool)
    ensures AcceptsKey(Key(name, r, false), fs, isEmail) <==>
              (Lookup(fs, name).Some? ==> Accepts(r, Lookup(fs, name).value, isEmail))
  {
  }

  /** `resize` passes exactly when it is an object of optional numeric width and height. */
  lemma ResizeRules(v: Value, isEmail: string -> bool)
    ensures Accepts(ResizeRule, v, isEmail) <==> Numbers(v, ["width", "height"])
  {
    if v.Obj? {
      var keys := ResizeRule.keys;
      AcceptsObject(keys, 0, v.fields, isEmail);
      assert Names(keys) == ["width", "height"];
      OptionalKey("width", NumberRule, v.fields, isEmail);
      OptionalKey("height", NumberRule, v.fields, isEmail);
      assert forall i :: 0 <= i < |keys| ==> keys[i] == Key(keys[i].name, NumberRule, false);
    }
  }

  /** `crop` passes exactly when it is an object of optional numeric width, height, x and y. */
  lemma CropRules(v: Value, isEmail: string -> bool)
    ensures Accepts(CropRule, v, isEmail) <==> Numbers(v, ["width", "height", "x", "y"])
  {
    if v.Obj? {
      var keys := CropRule.keys;
      AcceptsObject(keys, 0, v.fields, isEmail);
      assert Names(keys) == ["width", "height", "x", "y"];
      assert forall i :: 0 <= i < |keys| ==> keys[i] == Key(keys[i].name, NumberRule, false);
    }
  }

  /** `filters` passes exactly when it is an object of optional boolean grayscale and sepia. */
  lemma FiltersRules(v: Value, isEmail: string -> bool)
    ensures Accepts(FiltersRule, v, isEmail) <==> Switches(v, ["grayscale", "sepia"])
  {
    if v.Obj? {
      var keys := FiltersRule.keys;
      AcceptsObject(keys, 0, v.fields, isEmail);
      assert Names(keys) == ["grayscale", "sepia"];
      assert forall i :: 0 <= i < |keys| ==> keys[i] == Key(keys[i].name, BooleanRule, false);
    }
  }

  /** `watermark` passes exactly when it is an object whose only key is an optional non-empty text. */
  lemma WatermarkRules(v: Value, isEmail: string -> bool)
    ensures Accepts(WatermarkRule, v, isEmail) <==> Watermark(v)
  {
    if v.Obj? {
      var keys := WatermarkRule.keys;
      AcceptsObject(keys, 0, v.fields, isEmail);
      assert Names(keys) == ["text"];
      StringKey("text", 0, false, false, v.fields, isEmail);
    }
  }

  /** The six declared keys of the descriptor pass exactly when its operations have their shapes. */
  lemma OperationsRules(fs: seq<Field>, isEmail: string -> bool)
    ensures (forall i :: 0 <= i < |DescriptorRule.keys| ==> AcceptsKey(DescriptorRule.keys[i], fs, isEmail))
            <==> Operations(fs)
  {
    var keys := DescriptorRule.keys;
    ResizeCropKeys(fs, isEmail);
    WatermarkFiltersKeys(fs, isEmail);
    OptionalKey("rotate", NumberRule, fs, isEmail);
    OptionalKey("format", StringRule(0, false, FormatsAllowed), fs, isEmail);
    assert keys[2] == Key("rotate", NumberRule, false);
    assert keys[5] == Key("format", StringRule(0, false, FormatsAllowed), false);
    assert (forall i :: 0 <= i < |keys| ==> AcceptsKey(keys[i], fs, isEmail)) <==>
             AcceptsKey(keys[0], fs, isEmail) && AcceptsKey(keys[1], fs, isEmail) && AcceptsKey(keys[2], fs, isEmail)
             && AcceptsKey(keys[3], fs, isEmail) && AcceptsKey(keys[4], fs, isEmail) && AcceptsKey(keys[5], fs, isEmail);
  }

  lemma ResizeCropKeys(fs: seq<Field>, isEmail: string -> bool)
    ensures AcceptsKey(DescriptorRule.keys[0], fs, isEmail) <==>
              (Lookup(fs, "resize").Some? ==> Numbers(Lookup(fs, "resize").value, ["width", "height"]))
    ensures AcceptsKey(DescriptorRule.keys[1], fs, isEmail) <==>
              (Lookup(fs, "crop").Some? ==> Numbers(Lookup(fs, "crop").value, ["width", "height", "x", "y"]))
  {
    assert DescriptorRule.keys[0] == Key("resize", ResizeRule, false);
    assert DescriptorRule.keys[1] == Key("crop", CropRule, false);
    var resize, crop := Lookup(fs, "resize"), Lookup(fs, "crop");
    OptionalKey("resize", ResizeRule, fs, isEmail);
    if resize.Some? { ResizeRules(resize.value, isEmail); }
    OptionalKey("crop", CropRule, fs, isEmail);
    if crop.Some? { CropRules(crop.value, isEmail); }
  }

  lemma WatermarkFiltersKeys(fs: seq<Field>, isEmail: string -> bool)
    ensures AcceptsKey(DescriptorRule.keys[3], fs, isEmail) <==>
              (Lookup(fs, "watermark").Some? ==> Watermark(Lookup(fs, "watermark").value))
    ensures AcceptsKey(DescriptorRule.keys[4], fs, isEmail) <==>
              (Lookup(fs, "filters").Some? ==> Switches(Lookup(fs, "filters").value, ["grayscale", "sepia"]))
  {
    assert DescriptorRule.keys[3] == Key("watermark", WatermarkRule, false);
    assert DescriptorRule.keys[4] == Key("filters", FiltersRule, false);
    var watermark, filters := Lookup(fs, "watermark"), Lookup(fs, "filters");
    OptionalKey("watermark", WatermarkRule, fs, isEmail);
    if watermark.Some? { WatermarkRules(watermark.value, isEmail); }
    OptionalKey("filters", FiltersRule, fs, isEmail);
    if filters.Some? { FiltersRules(filters.value, isEmail); }
  }

  /** The descriptor passes exactly when it has the shape `Descriptor` spells out. */
  lemma DescriptorRules(t: Value, isEmail: string -> bool)
    ensures Accepts(DescriptorRule, t, isEmail) <==> Descriptor(t)
  {
    if t.Obj? {
      AcceptsObject(DescriptorRule.keys, 1, t.fields, isEmail);
      DescriptorNames();
      OperationsRules(t.fields, isEmail);
    }
  }

  /** A transform request passes exactly when its only key is `transformations` and that key
      holds a descriptor: resize and crop with numeric dimensions, a numeric rotate, a
      watermark with a non-empty text, boolean filters, a format among jpg, png and webp, and
      at least one of them. */
  lemma TransformRules(fs: seq<Field>, isEmail: string -> bool)
    ensures Accepts(TransformSchema, Obj(fs), isEmail) <==>
              OnlyKeys(fs, ["transformations"])
              && Lookup(fs, "transformations").Some?
              && Descriptor(Lookup(fs, "transformations").value)
  {
    var keys := TransformSchema.keys;
    AcceptsObject(keys, 0, fs, isEmail);
    assert Names(keys) == ["transformations"];
    var t := Lookup(fs, "transformations");
    if t.Some? {
      DescriptorRules(t.value, isEmail);
    }
  }

  /** A descriptor that rotates by any number and asks for an allowed format passes. */
  lemma RotateAndFormatAccepted(n: int, f: string, isEmail: string -> bool)
    requires f in FormatsAllowed
    ensures Accepts(TransformSchema,
                    Obj([Field("transformations", Obj([Field("rotate", Num(n)), Field("format", Str(f))]))]),
                    isEmail)
  {
    var t := [Field("rotate", Num(n)), Field("format", Str(f))];
    var keys := DescriptorRule.keys;
    DescriptorNames();
    forall i | 0 <= i < |keys| ensures AcceptsKey(keys[i], t, isEmail) {
      LookupSpec(t, keys[i].name);
    }
    AcceptsObject(keys, 1, t, isEmail);
    var body := [Field("transformations", Obj(t))];
    assert AcceptsKey(TransformSchema.keys[0], body, isEmail);
    AcceptsObject(TransformSchema.keys, 0, body, isEmail);
  }

  /** A request missing a required key is refused with that key's message first, followed by
      one message per undeclared key. */
  lemma MissingRequiredKey(k: Key, minKeys: nat, fs: seq<Field>, isEmail: string -> bool)
    requires k.required && Lookup(fs, k.name).None?
    ensures Validate(ObjectRule([k], minKeys), Obj(fs), isEmail) ==
              Some(Raise(400, Strings.Join([RequiredMessage([k.name])] + Unknown(fs, [k], []), ", ")))
  {
    var missing := RequiredMessage([k.name]);
    assert [] + [k.name] == [k.name];
    assert CheckKey(k, fs, [], isEmail) == [missing];
    assert [k][1..] == [];
    assert CheckKeys([k], fs, [], isEmail) == [missing] + CheckKeys([], fs, [], isEmail);
  }

  /** A transform request without a descriptor is refused, the missing descriptor reported first. */
  lemma TransformRequiresDescriptor(fs: seq<Field>, isEmail: string -> bool)
    requires Lookup(fs, "transformations").None?
    ensures Validate(TransformSchema, Obj(fs), isEmail) ==
              Some(Raise(400, Strings.Join([RequiredMessage(["transformations"])]
                                           + Unknown(fs, TransformSchema.keys, []), ", ")))
  {
    var k := Key("transformations", DescriptorRule, true);
    assert TransformSchema == ObjectRule([k], 0);
    MissingRequiredKey(k, 0, fs, isEmail);
  }

  /** The metadata patch is optional; when present it must be an object with at least one key,
      whose keys are among originalName and description, each a non-empty string. */
  lemma UpdateMetadataRules(fs: seq<Field>, isEmail: string -> bool)
    ensures Accepts(UpdateMetadataSchema, Obj(fs), isEmail) <==>
              (forall i :: 0 <= i < |fs| ==> fs[i].key == "metadata")
              && (Lookup(fs, "metadata").Some? ==> MetadataPatch(Lookup(fs, "metadata").value))
  {
    AcceptsObject(UpdateMetadataSchema.keys, 0, fs, isEmail);
    assert Names(UpdateMetadataSchema.keys) == ["metadata"];
    var m := Lookup(fs, "metadata");
    if m.Some? && m.value.Obj? {
      var keys := MetadataRule.keys;
      AcceptsObject(keys, 1, m.value.fields, isEmail);
      StringKey("originalName", 0, false, false, m.value.fields, isEmail);
      StringKey("description", 0, false, false, m.value.fields, isEmail);
      assert Names(keys) == ["originalName", "description"];
    }
  }

  /** An accepted metadata patch: an object with at least one key, only originalName and
      description as keys, each a non-empty string. */
  predicate MetadataPatch(m: Value)
  {
    m.Obj? && |m.fields| >= 1
    && (forall i :: 0 <= i < |m.fields| ==> m.fields[i].key in ["originalName", "description"])
    && (Lookup(m.fields, "originalName").Some? ==> StringAtLeast(m.fields, "originalName", 0))
    && (Lookup(m.fields, "description").Some? ==> StringAtLeast(m.fields, "description", 0))
  }
}
