/**
  The app's dynamic Expo configuration: it takes the static configuration
  and returns a copy whose `android.package` and `extra.eas` are pinned,
  keeping everything else. Objects are modelled as maps, so key order is not.
 */
module ExpoConfig {
  import opened JsRuntime

  const Package: string := "com.sarran.boltexponativewind"
  const ProjectId: string := "ec7a2e19-5f18-47d5-839d-f6dc51388066"

  /** A JSON-like configuration value. */
  datatype Value = Null | Bool(b: bool) | Num(n: real) | Str(s: string) | Arr(items: seq<Value>) | Obj(fields: map<string, Value>)

  type Config = map<string, Value>

  /** The field `key` of an object, `undefined` when absent. */
  function Get(c: Config, key: string): (v: Option<Value>)
    ensures v.Some? <==> key in c
    ensures v.Some? ==> v.value == c[key]
  {
    if key in c then Some(c[key]) else None
  }

  /**
    The own keys `{ ...(v || {}) }` copies: an object's fields. Anything else,
    a missing or falsy value included, contributes no keys here.
   */
  function Spread(v: Option<Value>): (fields: map<string, Value>)
    ensures v.Some? && v.value.Obj? ==> fields == v.value.fields
    ensures v.None? ==> fields == map[]
  {
    match v
    case Some(Obj(fields)) => fields
    case _ => map[]
  }

  /** The `android` object of the result: the original fields with `package` pinned. */
  function Android(c: Config): (fields: map<string, Value>)
    ensures "package" in fields && fields["package"] == Str(Package)
    ensures fields.Keys == Spread(Get(c, "android")).Keys + {"package"}
  {
    Spread(Get(c, "android"))["package" := Str(Package)]
  }

  /** The `extra` object of the result: the original fields with `eas` replaced by the project id alone. */
  function Extra(c: Config): (fields: map<string, Value>)
    ensures "eas" in fields && fields["eas"] == Obj(map["projectId" := Str(ProjectId)])
    ensures fields.Keys == Spread(Get(c, "extra")).Keys + {"eas"}
  {
    Spread(Get(c, "extra"))["eas" := Obj(map["projectId" := Str(ProjectId)])]
  }

  /** The exported function: the incoming configuration with `android` and `extra` rebuilt. */
  function Merge(c: Config): (r: Config)
    ensures "android" in r && "extra" in r
    ensures r.Keys == c.Keys + {"android", "extra"}
  {
    c["android" := Obj(Android(c))]["extra" := Obj(Extra(c))]
  }

  /** Every top-level key other than `android` and `extra` keeps its value, and no other key appears. */
  lemma OtherKeysUnchanged(c: Config, k: string)
    requires k != "android" && k != "extra"
    ensures k in Merge(c) <==> k in c
    ensures k in c ==> Merge(c)[k] == c[k]
  {
  }

  /** `android.package` is always the app's package, and every other key of `android` is kept as it was. */
  lemma AndroidPackagePinned(c: Config, k: string)
    ensures Merge(c)["android"] == Obj(Android(c))
    ensures "package" in Android(c) && Android(c)["package"] == Str(Package)
    ensures k != "package" ==> (k in Android(c) <==> k in Spread(Get(c, "android")))
    ensures k != "package" && k in Android(c) ==> Android(c)[k] == Spread(Get(c, "android"))[k]
  {
  }

  /** `extra.eas` becomes exactly `{ projectId }`, whatever it held; every other key of `extra` is kept. */
  lemma ExtraEasReplaced(c: Config, k: string)
    ensures Merge(c)["extra"] == Obj(Extra(c))
    ensures "eas" in Extra(c) && Extra(c)["eas"] == Obj(map["projectId" := Str(ProjectId)])
    ensures k != "eas" ==> (k in Extra(c) <==> k in Spread(Get(c, "extra")))
    ensures k != "eas" && k in Extra(c) ==> Extra(c)[k] == Spread(Get(c, "extra"))[k]
  {
  }

  /** A configuration without `android` or `extra` gets them holding only the pinned entries. */
  lemma MissingSectionsStartEmpty(c: Config)
    requires "android" !in c && "extra" !in c
    ensures Merge(c)["android"] == Obj(map["package" := Str(Package)])
    ensures Merge(c)["extra"] == Obj(map["eas" := Obj(map["projectId" := Str(ProjectId)])])
  {
  }

  /** Applying the function to its own output changes nothing. */
  lemma MergeIdempotent(c: Config)
    ensures Merge(Merge(c)) == Merge(c)
  {
    var m := Merge(c);
    assert Spread(Get(m, "android")) == Android(c);
    assert Android(m) == Android(c);
    assert Spread(Get(m, "extra")) == Extra(c);
    assert Extra(m) == Extra(c);
  }
}
