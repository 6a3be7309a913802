/** The dotted-path walk shared by both revisions of `TweetModel`.

    A path is cut at its first `.` into a head and a tail; the head names a
    member of the current object and the tail is resolved from that member.
    A path without a `.` names a member of the current node. Only object
    members are ever stepped through: a segment such as `[0]` is an ordinary
    member name, and an array node has no members. */
module JsonPath {
  import opened Outcomes
  import opened JsonTree
  import opened Strings

  /** `path.contains(".")`: the same test as `indexOf('.')` finding a
      position. */
  predicate HasDot(path: string)
  {
    '.' in path
  }

  /** The text before the first `.`. */
  function Head(path: string): (head: string)
    requires HasDot(path)
    ensures '.' !in head && |head| < |path| && path[|head|] == '.'
  {
    Before(path, '.')
  }

  /** The text after the first `.`. */
  function Tail(path: string): (tail: string)
    requires HasDot(path)
    ensures path == Head(path) + ['.'] + tail && |tail| < |path|
  {
    After(path, '.')
  }

  /** The member names a path steps through, in order. */
  function Segments(path: string): (keys: seq<string>)
    ensures |keys| >= 1
  {
    SplitOn(path, '.')
  }

  /** The path dialect is exactly a non-empty sequence of dot-free member
      names: cutting a path into segments and gluing them back with `.` is
      the identity, and so is the converse. */
  lemma PathsAreKeySequences(path: string, keys: seq<string>)
    requires |keys| >= 1 && forall i :: 0 <= i < |keys| ==> '.' !in keys[i]
    ensures JoinWith(Segments(path), '.') == path
    ensures Segments(JoinWith(keys, '.')) == keys
  {
    JoinSplit(path, '.');
    SplitJoin(keys, '.');
  }

  /** A dotted path's segments are its head followed by its tail's. */
  lemma SegmentsOfDotted(path: string)
    requires HasDot(path)
    ensures Segments(path) == [Head(path)] + Segments(Tail(path))
  {
  }

  /** Reference resolution over member names: step into the named member
      of an object, fail on anything else. */
  function Lookup(node: Json, keys: seq<string>): Option<Json>
  {
    if |keys| == 0 then Some(node)
    else if node.JObject? && keys[0] in node.fields then Lookup(node.fields[keys[0]], keys[1..])
    else None
  }

  /** The segments naming the object a path's last segment is set in. */
  function ParentKeys(path: string): seq<string>
  {
    Segments(path)[..|Segments(path)| - 1]
  }

  /** The node that holds the last segment is an object. */
  predicate ParentIsObject(root: Json, path: string)
  {
    var p := Lookup(root, ParentKeys(path));
    p.Some? && p.value.JObject?
  }

  /** Resolution reaches an object at `keys[..k]` that lacks `keys[k]`. */
  predicate MissingAt(root: Json, keys: seq<string>, k: nat)
    requires k < |keys|
  {
    var p := Lookup(root, keys[..k]);
    p.Some? && p.value.JObject? && keys[k] !in p.value.fields
  }

  /** Resolution reaches a node that is not an object at `keys[..k]`. */
  predicate NotObjectAt(root: Json, keys: seq<string>, k: nat)
    requires k <= |keys|
  {
    var p := Lookup(root, keys[..k]);
    p.Some? && !p.value.JObject?
  }

  predicate IsPrefix(a: seq<string>, b: seq<string>)
  {
    |a| <= |b| && b[..|a|] == a
  }

  /** The Java values `set` is called with. `BigDecimal` stands for every
      class the leaf conversion does not handle. */
  datatype JavaValue =
    | JavaNull
    | Node(json: Json)
    | Text(s: string)
    | DoubleArray(xs: seq<real>)
    | BigDecimal(v: real)

  datatype JavaException = ClassCastException | ArrayIndexOutOfBoundsException

  /** What a call of `set` did. `PathNotFound` is the logged "Could not find
      sub-path" case; `Ignored` is a value of an unhandled class; `Thrown`
      is an exception escaping to the caller. */
  datatype SetOutcome = Stored | PathNotFound | Ignored | Thrown(e: JavaException)

  datatype Conversion = Converted(node: Json) | NotHandled | Raised(e: JavaException)

  /** The leaf conversion of `setNested`: null becomes a JSON null, a
      `JsonNode` is stored as it is, a `String` becomes a text node and a
      `double[]` becomes an array of its first two entries (reading
      `array[1]` of a shorter array throws before anything is stored). */
  function Convert(value: JavaValue): (c: Conversion)
    ensures c.NotHandled? <==> value.BigDecimal?
    ensures c.Raised? <==> value.DoubleArray? && |value.xs| < 2
    ensures c.Raised? ==> c.e == ArrayIndexOutOfBoundsException
    ensures c.Converted? && value.DoubleArray? ==> c.node.JArray? && |c.node.items| == 2
  {
    match value
    case JavaNull => Converted(JNull)
    case Node(j) => Converted(j)
    case Text(s) => Converted(JString(s))
    case DoubleArray(xs) =>
      if |xs| < 2 then Raised(ArrayIndexOutOfBoundsException)
      else Converted(JArray([JNumber(xs[0]), JNumber(xs[1])]))
    case BigDecimal(_) => NotHandled
  }

  /** `setNested` on the members of an `ObjectNode`: descend through the
      head when the object has it (casting it to an object), log and stop
      when it does not, and at the leaf store the converted value. A call
      that does not store leaves the members exactly as they were. */
  function SetNested(obj: map<string, Json>, path: string, value: JavaValue)
    : (r: (map<string, Json>, SetOutcome))
    ensures !r.1.Stored? ==> r.0 == obj
    ensures r.1.Stored? ==> Convert(value).Converted?
    decreases |path|
  {
    if HasDot(path) then
      var head := Head(path);
      if head in obj then
        match obj[head]
        case JObject(child) =>
          var (child', outcome) := SetNested(child, Tail(path), value);
          (obj[head := JObject(child')], outcome)
        case _ => (obj, Thrown(ClassCastException))
      else (obj, PathNotFound)
    else
      match Convert(value)
      case Converted(node) => (obj[path := node], Stored)
      case _ => (obj, LeafOutcome(value))
  }

  /** `set`: cast the root to an object and run `setNested` on it. */
  function SetAt(root: Json, path: string, value: JavaValue): (r: (Json, SetOutcome))
    ensures !r.1.Stored? ==> r.0 == root
    ensures r.1.Stored? ==> root.JObject? && r.0.JObject? && Convert(value).Converted?
  {
    if root.JObject? then
      var (fields, outcome) := SetNested(root.fields, path, value);
      (JObject(fields), outcome)
    else (root, Thrown(ClassCastException))
  }

  /** The outcome a leaf assignment has for `value`. */
  function LeafOutcome(value: JavaValue): SetOutcome
  {
    match Convert(value)
    case Converted(_) => Stored
    case NotHandled => Ignored
    case Raised(e) => Thrown(e)
  }

  lemma LookupStep(obj: map<string, Json>, head: string, keys: seq<string>)
    requires head in obj
    ensures Lookup(JObject(obj), [head] + keys) == Lookup(obj[head], keys)
  {
    assert ([head] + keys)[1..] == keys;
  }

  /** `set` stores exactly when the parent of the last segment resolves to
      an object (the member itself need not exist: objects gain members on
      demand) and the value is of a handled class; a value of an unhandled
      class is ignored there. When the parent does not resolve to an object
      the path is reported missing or a cast fails. */
  lemma {:induction false} SetOutcomeCases(root: Json, path: string, value: JavaValue)
    ensures ParentIsObject(root, path) ==> SetAt(root, path, value).1 == LeafOutcome(value)
    ensures !ParentIsObject(root, path) ==>
              SetAt(root, path, value).1 in {PathNotFound, Thrown(ClassCastException)}
    decreases |path|
  {
    if !HasDot(path) {
      assert Segments(path) == [path];
      assert ParentKeys(path) == [];
    } else {
      var head, tail := Head(path), Tail(path);
      SegmentsOfDotted(path);
      assert ParentKeys(path) == [head] + ParentKeys(tail);
      if root.JObject? && head in root.fields {
        var child := root.fields[head];
        LookupStep(root.fields, head, ParentKeys(tail));
        if child.JObject? {
          SetOutcomeCases(child, tail, value);
          assert SetAt(root, path, value).1 == SetAt(child, tail, value).1;
        }
      }
    }
  }

  /** A `set` reported as a missing path met an object lacking the next
      segment before the last one. */
  lemma {:induction false} SetMissingWitness(root: Json, path: string, value: JavaValue)
    requires SetAt(root, path, value).1 == PathNotFound
    ensures exists k :: 0 <= k < |ParentKeys(path)| && MissingAt(root, Segments(path), k)
    decreases |path|
  {
    assert root.JObject? && HasDot(path);
    var obj := root.fields;
    var head, tail := Head(path), Tail(path);
    SegmentsOfDotted(path);
    if head !in obj {
      assert MissingAt(root, Segments(path), 0);
    } else {
      var child := obj[head];
      assert SetAt(child, tail, value).1 == PathNotFound;
      SetMissingWitness(child, tail, value);
      var k :| 0 <= k < |ParentKeys(tail)| && MissingAt(child, Segments(tail), k);
      DescendMissing(obj, head, Segments(tail), k);
    }
  }

  lemma DescendMissing(obj: map<string, Json>, head: string, rest: seq<string>, k: nat)
    requires head in obj && k < |rest| && MissingAt(obj[head], rest, k)
    ensures MissingAt(JObject(obj), [head] + rest, k + 1)
  {
    LookupStep(obj, head, rest[..k]);
    assert ([head] + rest)[..k + 1] == [head] + rest[..k];
  }

  /** A `set` that fails a cast met, on the way to the last segment, a node
      that is not an object. */
  lemma {:induction false} SetCastWitness(root: Json, path: string, value: JavaValue)
    requires SetAt(root, path, value).1 == Thrown(ClassCastException)
    ensures exists k :: 0 <= k <= |ParentKeys(path)| && NotObjectAt(root, Segments(path), k)
    decreases |path|
  {
    var keys := Segments(path);
    if !root.JObject? {
      assert NotObjectAt(root, keys, 0);
    } else {
      assert HasDot(path);
      var obj := root.fields;
      var head, tail := Head(path), Tail(path);
      SegmentsOfDotted(path);
      assert head in obj;
      var child := obj[head];
      if child.JObject? {
        assert SetAt(child, tail, value).1 == Thrown(ClassCastException);
        SetCastWitness(child, tail, value);
        var k :| 0 <= k <= |ParentKeys(tail)| && NotObjectAt(child, Segments(tail), k);
        DescendNotObject(obj, head, Segments(tail), k);
      } else {
        DescendNotObject(obj, head, Segments(tail), 0);
      }
    }
  }

  lemma DescendNotObject(obj: map<string, Json>, head: string, rest: seq<string>, k: nat)
    requires head in obj && k <= |rest| && NotObjectAt(obj[head], rest, k)
    ensures NotObjectAt(JObject(obj), [head] + rest, k + 1)
  {
    LookupStep(obj, head, rest[..k]);
    assert ([head] + rest)[..k + 1] == [head] + rest[..k];
  }

  /** After a `set` that stores, the path resolves to the converted value. */
  lemma {:induction false} SetThenLookup(root: Json, path: string, value: JavaValue)
    requires SetAt(root, path, value).1.Stored?
    ensures Lookup(SetAt(root, path, value).0, Segments(path)) == Some(Convert(value).node)
    decreases |path|
  {
    var obj := root.fields;
    if HasDot(path) {
      var head, tail := Head(path), Tail(path);
      var child := obj[head];
      SetThenLookup(child, tail, value);
      var fields := SetNested(obj, path, value).0;
      assert fields == obj[head := SetAt(child, tail, value).0];
      LookupStep(fields, head, Segments(tail));
    }
  }

  /** A `set` that stores changes nothing reachable by a path that is
      neither a prefix nor an extension of the one it addressed: every other
      member of the addressed object and of every object on the way keeps
      its value. */
  lemma {:induction false} SetFrame(root: Json, path: string, value: JavaValue, q: seq<string>)
    requires SetAt(root, path, value).1.Stored?
    requires !IsPrefix(q, Segments(path)) && !IsPrefix(Segments(path), q)
    ensures Lookup(SetAt(root, path, value).0, q) == Lookup(root, q)
    decreases |path|
  {
    var obj := root.fields;
    var keys := Segments(path);
    assert q != [];
    var fields := SetAt(root, path, value).0.fields;
    if HasDot(path) {
      var head, tail := Head(path), Tail(path);
      var child := obj[head];
      assert keys == [head] + Segments(tail);
      assert fields == obj[head := SetAt(child, tail, value).0];
      if q[0] == head {
        assert q == [head] + q[1..];
        assert !IsPrefix(q[1..], Segments(tail)) && !IsPrefix(Segments(tail), q[1..]);
        SetFrame(child, tail, value, q[1..]);
        LookupStep(fields, head, q[1..]);
        LookupStep(obj, head, q[1..]);
      }
    } else {
      assert keys == [path];
      assert q[0] != path;
    }
  }
}
