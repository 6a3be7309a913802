/** The tweet editor's document model and its "generate JSON" back-fill
    (SimpleTweetEditorUI). Its `get` never answers Java null: a missing
    member anywhere on the path, and a member holding JSON null, all read as
    the JSON null node. */
module TweetEditor {
  import opened Outcomes
  import opened JsonTree
  import opened JsonPath
  import opened Decimal
  import opened TweetId

  /** `getNested`: the node the path resolves to, or the JSON null node
      when resolution fails. */
  function GetNested(obj: Json, path: string): (r: Json)
    ensures r == (match Lookup(obj, Segments(path)) case Some(v) => v case None => JNull)
    decreases |path|
  {
    if HasDot(path) then
      var head := Head(path);
      if obj.JObject? && head in obj.fields then GetNested(obj.fields[head], Tail(path))
      else JNull
    else if obj.JObject? && path in obj.fields then obj.fields[path]
    else JNull
  }

  /** `has`: every head names a member of the node reached so far, and the
      last segment names a member of the final node. */
  function HasNested(obj: Json, path: string): (r: bool)
    ensures r <==> Lookup(obj, Segments(path)).Some?
    decreases |path|
  {
    if HasDot(path) then
      var head := Head(path);
      obj.JObject? && head in obj.fields && HasNested(obj.fields[head], Tail(path))
    else obj.JObject? && path in obj.fields
  }

  /** The document model behind the editor's fields. */
  class TweetModel {
    var root: Json

    /** `model.root = JSON.readValue(...)`: the parsed document. */
    constructor (doc: Json)
      ensures root == doc
    {
      root := doc;
    }

    /** `get`: a `JsonNode` reference, never null. Where `has` fails it is
        the JSON null node, otherwise the stored member. */
    function Get(path: string): (r: Option<Json>)
      reads this
      ensures r.Some?
      ensures !Has(path) ==> r == Some(JNull)
      ensures Has(path) ==> r == Lookup(root, Segments(path))
    {
      Some(GetNested(root, path))
    }

    /** `has`: the path resolves in the model's document. */
    function Has(path: string): (r: bool)
      reads this
      ensures r <==> Lookup(root, Segments(path)).Some?
    {
      HasNested(root, path)
    }

    /** `set`. Only a `set` that stores changes the document; it then holds
        the converted value at the path, and everything not on the path is
        as before. */
    method Set(path: string, value: JavaValue) returns (outcome: SetOutcome)
      modifies this
      ensures (root, outcome) == SetAt(old(root), path, value)
      ensures !outcome.Stored? ==> root == old(root)
      ensures outcome.Stored? ==> Has(path) && Get(path) == Some(Convert(value).node)
      ensures outcome.Stored? ==> forall q :: !IsPrefix(q, Segments(path)) && !IsPrefix(Segments(path), q) ==>
                Lookup(root, q) == Lookup(old(root), q)
    {
      var before := root;
      var r := SetAt(root, path, value);
      root, outcome := r.0, r.1;
      if outcome.Stored? {
        SetThenLookup(before, path, value);
        forall q | !IsPrefix(q, Segments(path)) && !IsPrefix(Segments(path), q)
          ensures Lookup(root, q) == Lookup(before, q)
        {
          SetFrame(before, path, value, q);
        }
      }
    }
  }

  /** The back-fill of `generateJsonFromModel`: a missing `created_at`
      gets the formatted clock, and a missing `id` leads to
      `set("id", idValue)` followed by `set("id_str", id)`. */
  function BackFillWith(doc: Json, createdAt: string, id: string, idValue: JavaValue)
    : (r: Result<Json, JavaException>)
    ensures !doc.JObject? ==> r == Err(ClassCastException)
    ensures HasNested(doc, "created_at") && HasNested(doc, "id") ==> r == Ok(doc)
  {
    var (doc1, out1) := if HasNested(doc, "created_at") then (doc, Stored) else SetAt(doc, "created_at", Text(createdAt));
    if out1.Thrown? then Err(out1.e)
    else if HasNested(doc1, "id") then Ok(doc1)
    else
      var (doc2, out2) := SetAt(doc1, "id", idValue);
      if out2.Thrown? then Err(out2.e)
      else
        var (doc3, out3) := SetAt(doc2, "id_str", Text(id));
        if out3.Thrown? then Err(out3.e) else Ok(doc3)
  }

  /** The back-fill as written: the numeric id is passed to `set` as a
      `BigDecimal`, a class the leaf conversion does not handle. */
  function BackFill(doc: Json, createdAt: string, id: string): (r: Result<Json, JavaException>)
    requires AllDigits(id)
    ensures r.Ok? <==> doc.JObject?
  {
    BackFillShape(doc, createdAt, id, BigDecimal(DecimalValue(id) as real));
    BackFillWith(doc, createdAt, id, BigDecimal(DecimalValue(id) as real))
  }

  /** The back-fill with the numeric id passed as a number node, so that
      `set` stores it. */
  function BackFillFixed(doc: Json, createdAt: string, id: string): (r: Result<Json, JavaException>)
    requires AllDigits(id)
    ensures r.Ok? <==> doc.JObject?
  {
    BackFillShape(doc, createdAt, id, Node(JNumber(DecimalValue(id) as real)));
    BackFillWith(doc, createdAt, id, Node(JNumber(DecimalValue(id) as real)))
  }

  /** What the back-fill does to a document: it fails exactly when the root
      is not an object (the first `set` casts it); otherwise `created_at`
      is present afterwards and keeps any value it had, an existing `id`
      leaves `id` and `id_str` alone, a missing `id` gets `id_str` set to
      the text and `id` set only if `idValue` is of a handled class, and
      no other member changes. */
  lemma BackFillShape(doc: Json, createdAt: string, id: string, idValue: JavaValue)
    requires !idValue.DoubleArray?
    ensures BackFillWith(doc, createdAt, id, idValue).Err? <==> !doc.JObject?
    ensures doc.JObject? ==> BackFillWith(doc, createdAt, id, idValue).value.JObject?
    ensures doc.JObject? ==>
      var m, f := doc.fields, BackFillWith(doc, createdAt, id, idValue).value.fields;
      && "created_at" in f
      && f["created_at"] == (if "created_at" in m then m["created_at"] else JString(createdAt))
      && ("id" in m ==> "id" in f && f["id"] == m["id"] && ("id_str" in f <==> "id_str" in m)
                        && ("id_str" in m ==> f["id_str"] == m["id_str"]))
      && ("id" !in m ==> "id_str" in f && f["id_str"] == JString(id)
                         && ("id" in f <==> Convert(idValue).Converted?)
                         && ("id" in f ==> f["id"] == Convert(idValue).node))
      && (forall k :: k != "created_at" && k != "id" && k != "id_str" ==>
            (k in f <==> k in m) && (k in m ==> f[k] == m[k]))
  {
    if doc.JObject? {
      var m := doc.fields;
      assert !HasDot("created_at") && !HasDot("id") && !HasDot("id_str");
      assert HasNested(doc, "created_at") <==> "created_at" in m;
      var m1 := if "created_at" in m then m else m["created_at" := JString(createdAt)];
      assert SetAt(doc, "created_at", Text(createdAt)).0 == JObject(m["created_at" := JString(createdAt)]);
      assert HasNested(JObject(m1), "id") <==> "id" in m1;
      if "id" !in m1 {
        var m2 := if Convert(idValue).Converted? then m1["id" := Convert(idValue).node] else m1;
        assert SetAt(JObject(m1), "id", idValue) == (JObject(m2), LeafOutcome(idValue));
        assert SetAt(JObject(m2), "id_str", Text(id)).0 == JObject(m2["id_str" := JString(id)]);
      }
    }
  }

  /** As written, back-filling a document that has no `id` still leaves it
      without one, while `id_str` is set. */
  lemma BackFillLeavesIdAbsent(doc: Json, createdAt: string, id: string)
    requires AllDigits(id)
    requires doc.JObject? && "id" !in doc.fields
    ensures BackFill(doc, createdAt, id).Ok? && BackFill(doc, createdAt, id).value.JObject?
    ensures var f := BackFill(doc, createdAt, id).value.fields;
            "id" !in f && "id_str" in f && f["id_str"] == JString(id)
  {
    BackFillShape(doc, createdAt, id, BigDecimal(DecimalValue(id) as real));
  }

  /** With the id passed as a number node, a back-filled document has both
      `id` and `id_str`, and they denote the same number. */
  lemma BackFillFixedStoresId(doc: Json, createdAt: string, id: string)
    requires AllDigits(id)
    requires doc.JObject? && "id" !in doc.fields
    ensures BackFillFixed(doc, createdAt, id).Ok? && BackFillFixed(doc, createdAt, id).value.JObject?
    ensures var f := BackFillFixed(doc, createdAt, id).value.fields;
      && "id" in f && "id_str" in f
      && f["id_str"] == JString(id)
      && f["id"] == JNumber(DecimalValue(f["id_str"].s) as real)
  {
    BackFillShape(doc, createdAt, id, Node(JNumber(DecimalValue(id) as real)));
  }

  /** Line 292: the geo checkbox is selected when `get("coordinates")` is
      not null. Because `get` never answers null, it is selected for every
      document. */
  function GeoCheckboxSelected(model: TweetModel): (selected: bool)
    reads model
    ensures selected
  {
    model.Get("coordinates") != None
  }

  /** The checkbox is selected for a document without coordinates and for
      one whose coordinates are JSON null (the form the editor writes when
      geo is off), although neither holds a position. */
  lemma GeoSelectedWithoutCoordinates(model: TweetModel)
    requires model.root == JObject(map["text" := JString("")])
             || model.root == JObject(map["coordinates" := JNull])
    ensures !GeoPresent(model.root) && GeoCheckboxSelected(model)
  {
    assert !HasDot("coordinates");
  }

  /** The check the geo checkbox evidently intends: the document holds
      coordinates that are not JSON null. */
  function GeoPresent(doc: Json): (r: bool)
    ensures r <==> doc.JObject? && "coordinates" in doc.fields && doc.fields["coordinates"] != JNull
  {
    assert !HasDot("coordinates");
    HasNested(doc, "coordinates") && GetNested(doc, "coordinates") != JNull
  }

  /** `generateJsonFromModel` up to serialisation: the back-filled document,
      or the exception that escapes when the root is not an object. */
  method GenerateJsonFromModel(model: TweetModel, createdAt: string, timestamp: nat, draws: seq<Digit>)
    returns (r: Result<Json, JavaException>)
    requires |draws| >= ID_LENGTH
    modifies model
    ensures r == BackFill(old(model.root), createdAt, IdText(timestamp, draws))
    ensures model.root == (if r.Ok? then r.value else old(model.root))
  {
    if !model.Has("created_at") {
      var out := model.Set("created_at", Text(createdAt));
      if out.Thrown? {
        return Err(out.e);
      }
    }
    if !model.Has("id") {
      var text := GenerateIdText(timestamp, draws);
      var out := model.Set("id", BigDecimal(DecimalValue(text) as real));
      if out.Thrown? {
        return Err(out.e);
      }
      out := model.Set("id_str", Text(text));
      if out.Thrown? {
        return Err(out.e);
      }
    }
    r := Ok(model.root);
  }
}
