# Simple fake tweet generator: a verified model of its core

The tools in this repository build and edit tweet-shaped JSON documents
for social-media simulations. There are three of them:

- a simple generator;
- a generator with an editable document;
- a tweet editor.

This project models the parts of them that hold logic, and proves
properties of those parts:

- **The document model `TweetModel`** of the editor and of the generator
  UI. It has `get`, `has` and `set`, each addressed by a dotted path such
  as `user.screen_name`. Modules `JsonTree`, `JsonPath`, `TweetEditor` and
  `FakeTweetGeneratorUI`.
  - A path is cut at its first `.` into a head and a tail, with
    `indexOf`/`substring` (module `Strings`). The head names a member of
    the current object.
  - The reference meaning of a path is `Lookup`: resolution over the
    sequence of its segments.
  - `set` is modelled on the members of the root object (`SetNested`,
    `SetAt`). Its result says whether it stored the value, logged a
    missing sub-path, ignored a value of an unhandled class, or let an
    exception escape. The classes `TweetModel` hold the document in a
    field that `Set` updates.
  - The two revisions differ in `get`. The editor's `get` never answers
    Java null: a missing member reads as the JSON null node. The
    generator UI's `get` answers null for a missing member. Java
    references are modelled as `Option<Json>`.
- **The back-fill in the editor's "generate JSON"**: a missing
  `created_at` and a missing `id`/`id_str` are filled in.
- **`buildSimpleTweet`** of both generators (`FakeTweetGenerator`,
  `FakeTweetGeneratorUI`), and the GeoJSON point they write (`GeoJson`).
- **`generateID`**, shared by all three tools (`TweetId`, `Decimal`). The
  clock's digits are padded with random digits to 16 characters. The
  method `GenerateIdText` carries the loop. `Long.toString` and
  `Long.valueOf` are `NatToDecimal` and `DecimalValue`.
- **The two text formatters** (`LatLongPairFormat`,
  `ConstrainedDoubleFormat`, with `TextFormat`). Java's `String.split`
  drops trailing empty pieces; it is modelled as `Strings.Split`.
- **The selection-rectangle state machine** of the map
  (`SelectionAdapter`). It is a class whose fields the mouse events
  update.

The model follows the code in these respects:

- The path dialect has no array-index segments. A segment such as `[0]`
  is an ordinary member name. Every array fails to resolve a further
  segment.
- `set` does not fail quietly when the root or an intermediate member is
  not an object. Its casts throw `ClassCastException`.
- A `set` of a `BigDecimal` stores nothing.
- Booleans are not among the values `set` handles.

## Model

| member | source | states |
|---|---|---|
| Strings.IndexOf | src/main/java/au/org/dcw/socialmedia/simulation/tools/ui/SimpleTweetEditorUI.java:82-83 | `indexOf`: -1 exactly when the character is absent; otherwise the position of its first occurrence (no occurrence before it) |
| Strings.Before | src/main/java/au/org/dcw/socialmedia/simulation/tools/ui/SimpleTweetEditorUI.java:82 | the head, the text before the first separator, holds no separator |
| Strings.After | src/main/java/au/org/dcw/socialmedia/simulation/tools/ui/SimpleTweetEditorUI.java:82-83 | head, the separator and tail put back together give the path; the tail is shorter than the path |
| Strings.DropTrailingEmpty | src/main/java/au/org/dcw/socialmedia/simulation/tools/ui/LatLongPairFormat.java:10 | `split` keeps a prefix of the pieces whose last kept piece is non-empty, and every dropped piece is empty |
| Strings.Split | src/main/java/au/org/dcw/socialmedia/simulation/tools/ui/LatLongPairFormat.java:10 | `split(",")` yields pieces that hold no comma |
| Strings.SplitTwoFields | src/main/java/au/org/dcw/socialmedia/simulation/tools/ui/LatLongPairFormat.java:10-11 | `a,b` followed by nothing but commas splits into exactly `[a, b]` when `b` is non-empty, because trailing empty pieces are dropped |
| Strings.TwoFieldsOfSplit | src/main/java/au/org/dcw/socialmedia/simulation/tools/ui/LatLongPairFormat.java:10-11 | conversely, a text that splits into two pieces is piece, comma, non-empty piece, then commas only |
| Strings.SplitPrefixes | src/main/java/au/org/dcw/socialmedia/simulation/tools/ui/LatLongPairFormat.java:10-26 | the text up to the end of the second piece is the first piece, a comma and the second piece; with more pieces a comma follows there |
| JsonPath.PathsAreKeySequences | src/main/java/au/org/dcw/socialmedia/simulation/tools/ui/SimpleTweetEditorUI.java:81-83 | cutting at dots and joining with dots are inverse: paths are exactly non-empty sequences of dot-free member names |
| JsonPath.SegmentsOfDotted | src/main/java/au/org/dcw/socialmedia/simulation/tools/ui/SimpleTweetEditorUI.java:81-85 | a dotted path's segments are its head followed by its tail's segments |
| JsonPath.Head | src/main/java/au/org/dcw/socialmedia/simulation/tools/ui/SimpleTweetEditorUI.java:81-82 | defined when `HasDot` (`path.contains(".")`) holds: the head holds no dot, and the path has a dot right after it |
| JsonPath.Tail | src/main/java/au/org/dcw/socialmedia/simulation/tools/ui/SimpleTweetEditorUI.java:81-83 | head, dot and tail rebuild the path, and the tail is shorter than the path |
| JsonPath.LookupStep | src/main/java/au/org/dcw/socialmedia/simulation/tools/ui/SimpleTweetEditorUI.java:84-85 | resolving a head that the object has, then the rest, is resolving the rest from that member |
| JsonPath.Convert | src/main/java/au/org/dcw/socialmedia/simulation/tools/ui/SimpleTweetEditorUI.java:109-122 | the leaf conversion: only a `BigDecimal` (an unhandled class) is not handled; only a `double[]` shorter than two entries throws, with `ArrayIndexOutOfBoundsException`; a converted `double[]` becomes an array of two entries |
| JsonPath.SetNested | src/main/java/au/org/dcw/socialmedia/simulation/tools/ui/SimpleTweetEditorUI.java:99-124 | a call that does not store leaves the members exactly as they were; it stores only a value of a handled class |
| JsonPath.SetAt | src/main/java/au/org/dcw/socialmedia/simulation/tools/ui/SimpleTweetEditorUI.java:95-97 | the root is cast to an object; a non-object root is left as it is |
| JsonPath.SetOutcomeCases | src/main/java/au/org/dcw/socialmedia/simulation/tools/ui/SimpleTweetEditorUI.java:99-124 | when the parent of the last segment resolves to an object, the leaf conversion decides (store, ignore or throw); otherwise the result is a missing sub-path or a failed cast |
| JsonPath.SetMissingWitness | src/main/java/au/org/dcw/socialmedia/simulation/tools/ui/SimpleTweetEditorUI.java:103-107 | a missing sub-path means an object on the way lacks the next segment |
| JsonPath.SetCastWitness | src/main/java/au/org/dcw/socialmedia/simulation/tools/ui/SimpleTweetEditorUI.java:95-104 | a failed cast means a node on the way to the parent is not an object |
| JsonPath.SetThenLookup | src/main/java/au/org/dcw/socialmedia/simulation/tools/ui/SimpleTweetEditorUI.java:108-122 | after a `set` that stores, the path resolves to the converted value |
| JsonPath.SetFrame | src/main/java/au/org/dcw/socialmedia/simulation/tools/ui/SimpleTweetEditorUI.java:99-124 | a `set` that stores changes nothing reachable by a path that is neither a prefix nor an extension of its own |
| Decimal.DigitChar | src/main/java/au/org/dcw/socialmedia/simulation/tools/ui/SimpleTweetEditorUI.java:534 | appending a digit 0-9 appends a decimal digit character |
| Decimal.NatToDecimal | src/main/java/au/org/dcw/socialmedia/simulation/tools/ui/SimpleFakeTweetGeneratorUI.java:436 | `Long.toString` of a non-negative number: non-empty, all digits, no leading zero except for 0 itself |
| Decimal.DecimalValue | src/main/java/au/org/dcw/socialmedia/simulation/tools/ui/SimpleFakeTweetGeneratorUI.java:440 | `Long.valueOf` of a digit text: a text with a non-zero first digit denotes at least 1, and at least 10 when longer than one digit |
| Decimal.ValueOfToString | src/main/java/au/org/dcw/socialmedia/simulation/tools/ui/SimpleFakeTweetGeneratorUI.java:436-440 | reading back the decimal text of a number gives the number |
| Decimal.ToStringOfValue | src/main/java/au/org/dcw/socialmedia/simulation/tools/ui/SimpleFakeTweetGeneratorUI.java:436-440 | writing the value of a canonical digit text (no leading zero unless it is `0`) gives the text back, so a canonical text is `Long.toString` of its value |
| TweetId.IdText | src/main/java/au/org/dcw/socialmedia/simulation/tools/ui/SimpleTweetEditorUI.java:531-537 | the generated id is all decimal digits |
| TweetId.IdTextLayout | src/main/java/au/org/dcw/socialmedia/simulation/tools/ui/SimpleTweetEditorUI.java:531-537 | the id is the clock's digits followed by one random digit per missing character; its length is 16, or the clock's length when that is longer |
| TweetId.GenerateIdText | src/main/java/au/org/dcw/socialmedia/simulation/tools/ui/SimpleTweetEditorUI.java:531-537 | the appending loop produces exactly that id text |
| TweetId.GenerateIdLong | src/main/java/au/org/dcw/socialmedia/simulation/tools/ui/SimpleFakeTweetGeneratorUI.java:435-441 | `Long.valueOf` of the generated text, whose `toString` is that text again for a clock after the epoch; SimpleFakeTweetGenerator.java:197-203 is the same method |
| TweetId.GenerateIdString | src/main/java/au/org/dcw/socialmedia/simulation/tools/ui/SimpleFakeTweetGeneratorUI.java:409 | `generateID().toString()`: the number is `Long.valueOf` of the generated id text for every clock reading; the text is canonical digits denoting that number, hence its `Long.toString`; for a clock after the epoch it is the generated id text itself |
| TweetEditor.GetNested | src/main/java/au/org/dcw/socialmedia/simulation/tools/ui/SimpleTweetEditorUI.java:80-93 | the node the path's segments resolve to, and the JSON null node whenever resolution fails |
| TweetEditor.HasNested | src/main/java/au/org/dcw/socialmedia/simulation/tools/ui/SimpleTweetEditorUI.java:130-137 | `has` holds exactly when the path's segments resolve |
| TweetEditor.BackFillWith | src/main/java/au/org/dcw/socialmedia/simulation/tools/ui/SimpleTweetEditorUI.java:502-511 | a non-object root makes the first `set` throw `ClassCastException`; a document that already has `created_at` and `id` is returned as it is |
| TweetEditor.BackFill | src/main/java/au/org/dcw/socialmedia/simulation/tools/ui/SimpleTweetEditorUI.java:502-511 | as written, with the id passed as a `BigDecimal`: succeeds exactly on an object root |
| TweetEditor.BackFillFixed | src/main/java/au/org/dcw/socialmedia/simulation/tools/ui/SimpleTweetEditorUI.java:502-511 | with the id passed as a number node: succeeds exactly on an object root |
| TweetEditor.TweetModel.constructor | src/main/java/au/org/dcw/socialmedia/simulation/tools/ui/SimpleTweetEditorUI.java:189 | the model holds the document read in as its root |
| TweetEditor.TweetModel.Get | src/main/java/au/org/dcw/socialmedia/simulation/tools/ui/SimpleTweetEditorUI.java:76-93 | `get` never answers null: the JSON null node where `has` fails, the resolved node where it holds |
| TweetEditor.TweetModel.Has | src/main/java/au/org/dcw/socialmedia/simulation/tools/ui/SimpleTweetEditorUI.java:126-128 | `has` on the model's document holds exactly when the path's segments resolve |
| TweetEditor.TweetModel.Set | src/main/java/au/org/dcw/socialmedia/simulation/tools/ui/SimpleTweetEditorUI.java:95-124 | the new document and outcome are those of `SetAt`. A `set` that does not store changes nothing. A stored value is then what `has` and `get` see at the path, and paths unrelated to it keep their values |
| TweetEditor.BackFillShape | src/main/java/au/org/dcw/socialmedia/simulation/tools/ui/SimpleTweetEditorUI.java:502-511 | the back-fill fails exactly on a non-object root; otherwise `created_at` is present and keeps an existing value, an existing `id` keeps `id`/`id_str`, a missing `id` gets `id_str` and gets `id` only for a handled class, and no other member changes |
| TweetEditor.BackFillLeavesIdAbsent | src/main/java/au/org/dcw/socialmedia/simulation/tools/ui/SimpleTweetEditorUI.java:507-510 | as written, a document without `id` still has none afterwards, though `id_str` is set |
| TweetEditor.BackFillFixedStoresId | src/main/java/au/org/dcw/socialmedia/simulation/tools/ui/SimpleTweetEditorUI.java:507-510 | with the id passed as a number node, `id` and `id_str` are both present and denote the same number |
| TweetEditor.GeoCheckboxSelected | src/main/java/au/org/dcw/socialmedia/simulation/tools/ui/SimpleTweetEditorUI.java:292 | the `!= null` test on `get("coordinates")` selects the geo checkbox for every document |
| TweetEditor.GeoSelectedWithoutCoordinates | src/main/java/au/org/dcw/socialmedia/simulation/tools/ui/SimpleTweetEditorUI.java:292 | the checkbox is selected for a document without coordinates and for one whose coordinates are JSON null, though the intended test fails for both |
| TweetEditor.GeoPresent | src/main/java/au/org/dcw/socialmedia/simulation/tools/ui/SimpleTweetEditorUI.java:292 | the intended test: true exactly when `coordinates` is present and not JSON null |
| TweetEditor.GenerateJsonFromModel | src/main/java/au/org/dcw/socialmedia/simulation/tools/ui/SimpleTweetEditorUI.java:502-513 | the model's document after back-fill with a freshly generated id, or the cast exception that escapes |
| FakeTweetGeneratorUI.GetNested | src/main/java/au/org/dcw/socialmedia/simulation/tools/ui/SimpleFakeTweetGeneratorUI.java:74-87 | the node the path's segments resolve to, and null whenever resolution fails |
| FakeTweetGeneratorUI.AbsentIsNotNull | src/main/java/au/org/dcw/socialmedia/simulation/tools/ui/SimpleFakeTweetGeneratorUI.java:84-86 | a missing member reads as null, a member holding JSON null as the null node |
| FakeTweetGeneratorUI.TweetModel.constructor | src/main/java/au/org/dcw/socialmedia/simulation/tools/ui/SimpleFakeTweetGeneratorUI.java:177 | the model holds the document read in as its root |
| FakeTweetGeneratorUI.TweetModel.Get | src/main/java/au/org/dcw/socialmedia/simulation/tools/ui/SimpleFakeTweetGeneratorUI.java:70-72 | `get` on the model's document: the resolved node or null |
| FakeTweetGeneratorUI.TweetModel.Set | src/main/java/au/org/dcw/socialmedia/simulation/tools/ui/SimpleFakeTweetGeneratorUI.java:89-118 | as the editor's `set`: only a stored value changes the document, it is then what `get` sees, and unrelated paths keep their values |
| FakeTweetGeneratorUI.Coordinates | src/main/java/au/org/dcw/socialmedia/simulation/tools/ui/SimpleFakeTweetGeneratorUI.java:420-425 | the point written for `getLatLon`'s pair reads back, as RFC 7946 section 3.1.1 orders a position, as that longitude and latitude |
| FakeTweetGeneratorUI.BuildSimpleTweet | src/main/java/au/org/dcw/socialmedia/simulation/tools/ui/SimpleFakeTweetGeneratorUI.java:407-428 | exactly these members: `created_at` unless skipped, `id` as the number that `id_str` spells, `id_str` as canonical digits whose value is that of the generated id text (that text itself for a clock after the epoch), `text` and `full_text` as the text, `user` with the screen name, and `coordinates` only when geo is on: a `Point` holding exactly `[lon, lat]`, which reads back as the chosen position |
| FakeTweetGenerator.CoordinatesSwapped | src/main/java/au/org/dcw/socialmedia/simulation/tools/ui/SimpleFakeTweetGenerator.java:182-188 | the point as written reads back with latitude and longitude swapped: for a position in Adelaide the latitude read is 138.604 |
| FakeTweetGenerator.CoordinatesAsWritten | src/main/java/au/org/dcw/socialmedia/simulation/tools/ui/SimpleFakeTweetGenerator.java:182-188 | the point as written reads back with the latitude in the longitude's place and vice versa |
| FakeTweetGenerator.BuildSimpleTweet | src/main/java/au/org/dcw/socialmedia/simulation/tools/ui/SimpleFakeTweetGenerator.java:172-190 | exactly these members: `id` and `id_str` both the same text, canonical digits whose value is that of the generated id text (that text itself for a clock after the epoch), `text` and `full_text`, `user` with the screen name, `coordinates` only when geo is on, and never `created_at` |
| LatLongPairFormat.StringToValue | src/main/java/au/org/dcw/socialmedia/simulation/tools/ui/LatLongPairFormat.java:9-37 | accepted exactly when there are two pieces, a latitude in [-90, 90] and a longitude in [-180, 180]; the accepted value is the text itself |
| LatLongPairFormat.WrongNumberOfCommas | src/main/java/au/org/dcw/socialmedia/simulation/tools/ui/LatLongPairFormat.java:10-16 | a wrong piece count is reported at -1 for fewer than two pieces; with more, at the position just past the first two pieces and the comma between them, which holds the second comma |
| LatLongPairFormat.LatitudeError | src/main/java/au/org/dcw/socialmedia/simulation/tools/ui/LatLongPairFormat.java:17-25 | an unparsable or out-of-range latitude is reported at offset 0, with its message, whatever the longitude |
| LatLongPairFormat.LongitudeError | src/main/java/au/org/dcw/socialmedia/simulation/tools/ui/LatLongPairFormat.java:26-35 | after a good latitude, a bad longitude is reported at the position just past the first piece and its comma, where the longitude text starts, with the message of its case |
| LatLongPairFormat.AcceptsPair | src/main/java/au/org/dcw/socialmedia/simulation/tools/ui/LatLongPairFormat.java:10-36 | a latitude text, a comma, a non-empty longitude text and trailing commas are accepted exactly when both numbers are in range |
| LatLongPairFormat.AcceptedIsPair | src/main/java/au/org/dcw/socialmedia/simulation/tools/ui/LatLongPairFormat.java:10-36 | every accepted text has that form, with both numbers in range |
| LatLongPairFormat.ValueToString | src/main/java/au/org/dcw/socialmedia/simulation/tools/ui/LatLongPairFormat.java:40-42 | no value shows as exactly `0.0,0.0`, which splits into the two pieces `0.0` and `0.0`; a value shows as its text |
| LatLongPairFormat.ValueToStringAccepted | src/main/java/au/org/dcw/socialmedia/simulation/tools/ui/LatLongPairFormat.java:40-42 | the text shown for no value, "0.0,0.0", is accepted, and so is the text shown for an accepted value |
| ConstrainedDoubleFormat.New | src/main/java/au/org/dcw/socialmedia/simulation/tools/ui/ConstrainedDoubleFormat.java:11-19 | the constructor succeeds exactly when lower <= upper (equal bounds allowed), keeping both bounds; otherwise it raises IllegalArgumentException with its message |
| ConstrainedDoubleFormat.StringToValue | src/main/java/au/org/dcw/socialmedia/simulation/tools/ui/ConstrainedDoubleFormat.java:22-33 | accepted exactly when the text parses to a number within both inclusive bounds, and the value is that number; every error is at offset 0 with the message of its case |
| ConstrainedDoubleFormat.ValueToString | src/main/java/au/org/dcw/socialmedia/simulation/tools/ui/ConstrainedDoubleFormat.java:36-38 | no value shows as `0.0`, a number as its `Double.toString`; `ValueToStringRoundTrip` relates the shown text to what is accepted |
| ConstrainedDoubleFormat.EqualBoundsAcceptOneValue | src/main/java/au/org/dcw/socialmedia/simulation/tools/ui/ConstrainedDoubleFormat.java:11-33 | with equal bounds exactly one number is accepted |
| ConstrainedDoubleFormat.ValueToStringRoundTrip | src/main/java/au/org/dcw/socialmedia/simulation/tools/ui/ConstrainedDoubleFormat.java:36-38 | a shown value is accepted back, as the same number, exactly when it is within the bounds; "0.0" for no value is accepted exactly when 0 is |
| ConstrainedDoubleFormat.ConstructedFormatAcceptsLowerBound | src/main/java/au/org/dcw/socialmedia/simulation/tools/ui/ConstrainedDoubleFormat.java:11-33 | every constructed formatter accepts its lower bound |
| SelectionAdapter.Span | src/main/java/au/org/dcw/socialmedia/simulation/tools/ui/SelectionAdapter.java:107-112 | the min/max rectangle has non-negative size and covers both points |
| SelectionAdapter.SpanIsSmallest | src/main/java/au/org/dcw/socialmedia/simulation/tools/ui/SelectionAdapter.java:107-112 | a rectangle covers both points exactly when it encloses their span |
| SelectionAdapter.SpanSymmetric | src/main/java/au/org/dcw/socialmedia/simulation/tools/ui/SelectionAdapter.java:107-112 | the span does not depend on the order of the two points |
| SelectionAdapter.SelectionAdapter.constructor | src/main/java/au/org/dcw/socialmedia/simulation/tools/ui/SelectionAdapter.java:37-41 | a new adapter is not dragging and both points are the origin |
| SelectionAdapter.SelectionAdapter.MousePressed | src/main/java/au/org/dcw/socialmedia/simulation/tools/ui/SelectionAdapter.java:52-61 | a button-3 press starts dragging with start = end = the point, after which the rectangle is empty at that point; other buttons change nothing |
| SelectionAdapter.SelectionAdapter.MouseDragged | src/main/java/au/org/dcw/socialmedia/simulation/tools/ui/SelectionAdapter.java:64-72 | while dragging only the end point moves, to the pointer; otherwise nothing changes |
| SelectionAdapter.SelectionAdapter.MouseReleased | src/main/java/au/org/dcw/socialmedia/simulation/tools/ui/SelectionAdapter.java:75-98 | a button-3 release while dragging ends dragging and yields the selected span; any other release changes nothing; the points never change |
| SelectionAdapter.SelectionAdapter.GetRectangle | src/main/java/au/org/dcw/socialmedia/simulation/tools/ui/SelectionAdapter.java:103-116 | null exactly when not dragging; otherwise the smallest rectangle covering start and end |
| SelectionAdapter.PressThenDrag | src/main/java/au/org/dcw/socialmedia/simulation/tools/ui/SelectionAdapter.java:52-116 | a button-3 press at a then a drag to b selects the span of a and b, whose size is the distance between them on each axis |

## Left out

- Jackson parsing and serialisation are given. Documents are values of `JsonTree.Json`. The order of object members and the text produced are not modelled.
- Identity of nodes is not modelled. In Java, `set` mutates an `ObjectNode` in place, so a child node shared with another holder would change there too; here `Set` replaces the model's document by the updated value.
- JSON numbers and Java doubles are mathematical reals, so NaN, infinities and rounding are not modelled.
- `Double.parseDouble` and `Double.toString` are parameters: `DoubleParser` and `DoubleShow`.
- The clock (`System.currentTimeMillis`, `ZonedDateTime.now`), the timestamp formatter and `Random.nextInt(10)` are inputs: `timestamp`, `createdAt` and `draws`.
- LatLongPairFormat.WrongNumberOfCommas: lengths count Unicode scalar values, not UTF-16 code units as Java's `String.length()` does, so the reported offset differs when the first two pieces hold characters outside the Basic Multilingual Plane.
- TweetId.GenerateIdText: the clock reading is a natural number. A negative `currentTimeMillis`, whose text starts with `-`, is not modelled.
- TweetId.GenerateIdLong: `Long.valueOf` overflow of a text longer than 18 digits is not modelled.
- FakeTweetGeneratorUI.BuildSimpleTweet: `id` is the exact number. The source goes through `Double.parseDouble` and `BigDecimal.valueOf`, which is exact only below 2^53; the 16-digit ids of present-day clock readings are below that.
- `GeoPanel.getLatLon` is not part of this model. Its latitude and longitude are inputs of the two `BuildSimpleTweet` methods.
- `lookupLatLon`, `makeLatLonJsonNode`, `updateUIFromModel` and the rest of the Swing user interface are not modelled, nor are the clipboard, command-line parsing and proxy settings.
- Logging of a missing sub-path is the `PathNotFound` outcome. The message text is not modelled.
- The formatters' use by `JFormattedTextField` (when it commits or reverts) is not modelled.
- SelectionAdapter.SelectionAdapter.MouseReleased: the viewer calls are not modelled (re-centring on the rectangle's middle, zooming in one level, repainting). The method yields the rectangle the viewer is centred on instead; `mouseDragged`'s repaint is left out as well.
- SelectionAdapter.SelectionAdapter.GetRectangle: points and sizes are unbounded integers. The 32-bit overflow of `x2 - x1` for points more than 2^31 apart is not modelled.
- Mouse points are integer pixel positions. `Point2D.Double` stores them exactly, so the `(int)` casts of `getRectangle` change nothing.

## Findings

The two operations that model a tool as it is written, `TweetEditor.GenerateJsonFromModel` and `FakeTweetGenerator.BuildSimpleTweet`, keep the as-written behaviour. The corrected definitions stand beside them with their intended properties proved.

| source | as written | input that shows it | evidently intended | confidence | as-written member | corrected member |
|---|---|---|---|---|---|---|
| src/main/java/au/org/dcw/socialmedia/simulation/tools/ui/SimpleTweetEditorUI.java:509 | `set("id", BigDecimal...)` reaches `setNested`'s leaf, which has no branch for `BigDecimal`, so nothing is stored | any object document without `id`, e.g. `{"text": ""}` | the back-filled document carries the numeric `id` next to `id_str` | high; not executed | TweetEditor.BackFillLeavesIdAbsent | TweetEditor.BackFillFixedStoresId |
| src/main/java/au/org/dcw/socialmedia/simulation/tools/ui/SimpleTweetEditorUI.java:292 | the checkbox is selected when `model.get("coordinates") != null`, but this `get` never answers null | the document `{"text": ""}`; in the tool's current flow this line runs only once, on the fresh template, which holds non-null coordinates (lines 189 and 195-197), and a pasted document sets the checkbox through a different test (lines 440-444), so the constant test is latent dead logic with no visible effect today | select the checkbox only when the document has non-null coordinates | medium, latent; not executed | TweetEditor.GeoSelectedWithoutCoordinates | TweetEditor.GeoPresent |
| src/main/java/au/org/dcw/socialmedia/simulation/tools/ui/SimpleFakeTweetGenerator.java:186 | the GeoJSON point's position is `getLatLon`'s `[lat, lon]` | latitude -34.918, longitude 138.604 | `[lon, lat]`, the order of section 3.1.1 of RFC 7946, as the later revision writes it | high; not executed | FakeTweetGenerator.CoordinatesSwapped | FakeTweetGeneratorUI.Coordinates |
