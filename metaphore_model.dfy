/** The Metaphore schema: a required title, an optional content and two
    flags with defaults (visible, downloadable), together with the two ways
    mongoose writes such a record: building a new document (`new Metaphore`,
    `insertMany`), which applies defaults and validators, and casting an
    update (`findOneAndUpdate`), which applies neither. */
module MetaphoreModel {
  import opened Http
  import opened Mongoose

  /** A stored record. Each path may hold null (None): a create rejects a
      missing title, but an update can still store one. */
  datatype Record = Record(
    title: Option<string>,
    content: Option<string>,
    visible: Option<bool>,
    downloadable: Option<bool>)

  /** A record together with the `_id` the store gave it: what `res.json` sends. */
  datatype Document = Document(id: Id, record: Record)

  /** The schema's `required: true` on title, as a property of a record. */
  predicate HasTitle(r: Record) {
    RequiredString(r.title)
  }

  /** A Boolean path with a default: an undefined value takes the default,
      anything else is cast (so an explicit null stays null). */
  function FlagWithDefault(v: Json, default: bool): (r: Result<Option<bool>>)
    // an explicit null keeps no default
    ensures v.Null? ==> r == Ok(None)
    // only a value that does not cast is refused; a missing one never is
    ensures r.Ok? <==> v.Undefined? || CastBoolean(v).Ok?
    // the flag is true exactly when it was given as a true spelling, or was
    // missing and defaults to true; likewise for false
    ensures r == Ok(Some(true)) <==> v in TrueValues() || (v.Undefined? && default)
    ensures r == Ok(Some(false)) <==> v in FalseValues() || (v.Undefined? && !default)
  {
    if v.Undefined? then Ok(Some(default)) else CastBoolean(v)
  }

  /** `new Metaphore({title, content, visible, downloadable})` followed by
      validation: the record `save` stores, or Err when `save` rejects. */
  function NewRecord(title: Json, content: Json, visible: Json, downloadable: Json): (r: Result<Record>)
    // title is required: a saved record always has a non-empty title,
    // and a missing, null or empty one is refused
    ensures r.Ok? ==> HasTitle(r.value)
    ensures title.Nullish() || title == Str("") ==> r == Err
    // the record is refused exactly when some path does not cast or title is missing
    ensures r.Ok? <==> CastRequiredString(title).Ok? && CastString(content).Ok?
                       && FlagWithDefault(visible, true).Ok? && FlagWithDefault(downloadable, false).Ok?
    // the supplied values are the stored ones
    ensures r.Ok? ==> r.value.title == CastString(title).value && r.value.content == CastString(content).value
    // defaults: visible is true and downloadable false when not supplied
    ensures r.Ok? && visible.Undefined? ==> r.value.visible == Some(true)
    ensures r.Ok? && downloadable.Undefined? ==> r.value.downloadable == Some(false)
    ensures r.Ok? && !visible.Undefined? ==> r.value.visible == CastBoolean(visible).value
    ensures r.Ok? && !downloadable.Undefined? ==> r.value.downloadable == CastBoolean(downloadable).value
  {
    match (CastRequiredString(title), CastString(content),
           FlagWithDefault(visible, true), FlagWithDefault(downloadable, false))
    case (Ok(t), Ok(c), Ok(v), Ok(d)) => Ok(Record(Some(t), c, v, d))
    case _ => Err
  }

  /** The record built from the four schema paths of an object; other keys
      are dropped, as the schema is strict. */
  function RecordFrom(obj: Json): (r: Result<Record>)
    requires !obj.Nullish()
    // only an object can supply a title, so anything else is refused
    ensures r.Ok? ==> obj.Obj? && "title" in obj.fields && HasTitle(r.value)
    ensures r.Ok? && "visible" !in obj.fields ==> r.value.visible == Some(true)
    ensures r.Ok? && "downloadable" !in obj.fields ==> r.value.downloadable == Some(false)
  {
    NewRecord(obj.Prop("title"), obj.Prop("content"), obj.Prop("visible"), obj.Prop("downloadable"))
  }

  /** Content is optional: a title alone makes a record, with the defaults. */
  lemma ContentIsOptional(t: string)
    requires t != []
    ensures NewRecord(Str(t), Undefined, Undefined, Undefined) == Ok(Record(Some(t), None, Some(true), Some(false)))
  {
  }

  /** A record created from a title and content alone reads back with those
      values and the two defaults. */
  lemma CreatedWithDefaults(t: string, c: string)
    requires t != []
    ensures RecordFrom(Obj(map["title" := Str(t), "content" := Str(c)]))
            == Ok(Record(Some(t), Some(c), Some(true), Some(false)))
  {
    var o := Obj(map["title" := Str(t), "content" := Str(c)]);
    assert o.Prop("visible") == Undefined && o.Prop("downloadable") == Undefined;
  }

  /** The cast form of an update document: for each schema path, None when
      the update leaves it alone, Some(v) when it sets it to v (v may be null). */
  datatype Update = Update(
    title: Option<Option<string>>,
    content: Option<Option<string>>,
    visible: Option<Option<bool>>,
    downloadable: Option<Option<bool>>)

  const SchemaPaths: set<string> := {"title", "content", "visible", "downloadable"}

  /** A key the update sets: mongoose removes keys whose value is undefined. */
  predicate Sets(fields: map<string, Json>, key: string) {
    key in fields && !fields[key].Undefined?
  }

  function StringPath(fields: map<string, Json>, key: string): Result<Option<Option<string>>> {
    if !Sets(fields, key) then Ok(None)
    else match CastString(fields[key])
      case Ok(v) => Ok(Some(v))
      case Err => Err
  }

  function BooleanPath(fields: map<string, Json>, key: string): Result<Option<Option<bool>>> {
    if !Sets(fields, key) then Ok(None)
    else match CastBoolean(fields[key])
      case Ok(v) => Ok(Some(v))
      case Err => Err
  }

  /** Casting an update document against the schema. Keys outside the schema
      are dropped (strict mode); a set path whose value does not cast makes
      the whole update fail with a CastError. No validator runs. */
  function CastUpdate(fields: map<string, Json>): (r: Result<Update>)
    ensures r.Err? <==> (Sets(fields, "title") && CastString(fields["title"]).Err?)
                        || (Sets(fields, "content") && CastString(fields["content"]).Err?)
                        || (Sets(fields, "visible") && CastBoolean(fields["visible"]).Err?)
                        || (Sets(fields, "downloadable") && CastBoolean(fields["downloadable"]).Err?)
  {
    match (StringPath(fields, "title"), StringPath(fields, "content"),
           BooleanPath(fields, "visible"), BooleanPath(fields, "downloadable"))
    case (Ok(t), Ok(c), Ok(v), Ok(d)) => Ok(Update(t, c, v, d))
    case _ => Err
  }

  /** The record after an update: each set path replaced, the rest kept. */
  function Apply(r: Record, u: Update): (a: Record)
    // an update that sets nothing leaves the record as it was
    ensures u == Update(None, None, None, None) ==> a == r
    // an update that sets every path does not depend on the old record
    ensures u.title.Some? && u.content.Some? && u.visible.Some? && u.downloadable.Some? ==>
              a == Record(u.title.value, u.content.value, u.visible.value, u.downloadable.value)
  {
    Record(
      if u.title.Some? then u.title.value else r.title,
      if u.content.Some? then u.content.value else r.content,
      if u.visible.Some? then u.visible.value else r.visible,
      if u.downloadable.Some? then u.downloadable.value else r.downloadable)
  }

  /** What a successful update stores: each path the body sets holds the
      value that path casts it to, and every other path keeps the record's. */
  lemma UpdateStores(r: Record, fields: map<string, Json>)
    requires CastUpdate(fields).Ok?
    ensures var a := Apply(r, CastUpdate(fields).value);
      && a.title == (if Sets(fields, "title") then CastString(fields["title"]).value else r.title)
      && a.content == (if Sets(fields, "content") then CastString(fields["content"]).value else r.content)
      && a.visible == (if Sets(fields, "visible") then CastBoolean(fields["visible"]).value else r.visible)
      && a.downloadable == (if Sets(fields, "downloadable") then CastBoolean(fields["downloadable"]).value
                            else r.downloadable)
  {
  }

  /** Keys outside the schema change nothing about an update. */
  lemma UnknownKeysIgnored(fields: map<string, Json>, key: string, v: Json)
    requires key !in SchemaPaths
    ensures CastUpdate(fields[key := v]) == CastUpdate(fields)
  {
    var f := fields[key := v];
    assert forall k :: k in SchemaPaths ==> (Sets(f, k) <==> Sets(fields, k)) && (Sets(f, k) ==> f[k] == fields[k]);
  }

  /** Applying the same update twice is applying it once: a PUT can be retried. */
  lemma ApplyIdempotent(r: Record, u: Update)
    ensures Apply(Apply(r, u), u) == Apply(r, u)
  {
  }

  /** An update of `{visible: v}`: with v undefined it changes nothing; otherwise
      it fails exactly when v does not cast, and sets visible and nothing else. */
  lemma VisibleUpdate(r: Record, v: Json)
    ensures var u := CastUpdate(map["visible" := v]);
      && (u.Err? <==> !v.Undefined? && CastBoolean(v).Err?)
      && (u.Ok? && v.Undefined? ==> Apply(r, u.value) == r)
      && (u.Ok? && !v.Undefined? ==> Apply(r, u.value) == r.(visible := CastBoolean(v).value))
  {
    var f := map["visible" := v];
    assert !Sets(f, "title") && !Sets(f, "content") && !Sets(f, "downloadable");
  }

  /** The same for an update of `{downloadable: v}`. */
  lemma DownloadableUpdate(r: Record, v: Json)
    ensures var u := CastUpdate(map["downloadable" := v]);
      && (u.Err? <==> !v.Undefined? && CastBoolean(v).Err?)
      && (u.Ok? && v.Undefined? ==> Apply(r, u.value) == r)
      && (u.Ok? && !v.Undefined? ==> Apply(r, u.value) == r.(downloadable := CastBoolean(v).value))
  {
    var f := map["downloadable" := v];
    assert !Sets(f, "title") && !Sets(f, "content") && !Sets(f, "visible");
  }

  /** Updates bypass the schema's validators: an update can store a null or
      empty title, which no create would accept. */
  lemma UpdateCanDropTitle(r: Record)
    ensures CastUpdate(map["title" := Null]).Ok?
    ensures !HasTitle(Apply(r, CastUpdate(map["title" := Null]).value))
    ensures CastUpdate(map["title" := Str("")]).Ok?
    ensures !HasTitle(Apply(r, CastUpdate(map["title" := Str("")]).value))
  {
    var f, g := map["title" := Null], map["title" := Str("")];
    assert !Sets(f, "content") && !Sets(f, "visible") && !Sets(f, "downloadable");
    assert !Sets(g, "content") && !Sets(g, "visible") && !Sets(g, "downloadable");
  }
}
