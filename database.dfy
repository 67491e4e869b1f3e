/** The annotation store: the `metadata` and `annotations` tables of one
    open database, and the queries the back end runs on them
    (src-tauri/src/database.rs). SQL text and the storage engine are not
    modelled; a table is a map keyed by its primary key. */
module Database {
  import opened Wrappers
  import opened Models
  import opened Numbers

  /** One row of `annotations`, less its key `id`. Every column is kept as
      SQLite stores it: the kind and the position payload as text, the page
      as an unbounded integer. */
  datatype Row = Row(
    typ: string,
    pageNumber: int,
    color: Option<string>,
    content: Option<string>,
    positionData: Option<string>,
    createdAt: string,
    updatedAt: string)

  /** The contents of a database file: both tables. */
  datatype Image = Image(annotations: map<string, Row>, metadata: map<string, string>)

  /** The contents of a freshly initialised database. */
  const EmptyImage: Image := Image(map[], map[])

  /** The `CHECK(type IN ('highlight', 'note', 'bookmark'))` constraint, and
      page numbers a `u32` can hold. */
  ghost predicate Constrained(t: map<string, Row>) {
    forall id :: id in t ==> t[id].typ in TypeNames && 0 <= t[id].pageNumber < 0x1_0000_0000
  }

  // ---------------------------------------------------------------------
  // Ordering of query results

  /** SQLite's BINARY collation on text: lexicographic order of code points
      (the same order as that of the UTF-8 bytes). */
  predicate TextLe(a: string, b: string)
    decreases |a|
  {
    a == [] || (b != [] && (a[0] < b[0] || (a[0] == b[0] && TextLe(a[1..], b[1..]))))
  }

  lemma {:induction false} TextLeTotal(a: string, b: string)
    ensures TextLe(a, b) || TextLe(b, a)
    decreases |a|
  {
    if a != [] && b != [] && a[0] == b[0] {
      TextLeTotal(a[1..], b[1..]);
    }
  }

  lemma {:induction false} TextLeTransitive(a: string, b: string, c: string)
    requires TextLe(a, b) && TextLe(b, c)
    ensures TextLe(a, c)
    decreases |a|
  {
    if a != [] && b != [] && c != [] && a[0] == b[0] == c[0] {
      TextLeTransitive(a[1..], b[1..], c[1..]);
    }
  }

  /** The `WHERE` clause of the listing query. */
  predicate Matches(page: Option<U32>, r: Row) {
    page.None? || r.pageNumber == page.value
  }

  /** The `ORDER BY` clause: `created_at` within one page, `page_number`
      then `created_at` across all pages. */
  predicate InOrder(page: Option<U32>, x: Row, y: Row) {
    if page.Some? then TextLe(x.createdAt, y.createdAt)
    else x.pageNumber < y.pageNumber || (x.pageNumber == y.pageNumber && TextLe(x.createdAt, y.createdAt))
  }

  lemma InOrderTotal(page: Option<U32>, x: Row, y: Row)
    ensures InOrder(page, x, y) || InOrder(page, y, x)
  {
    TextLeTotal(x.createdAt, y.createdAt);
  }

  lemma InOrderTransitive(page: Option<U32>, x: Row, y: Row, z: Row)
    requires InOrder(page, x, y) && InOrder(page, y, z)
    ensures InOrder(page, x, z)
  {
    if page.Some? || (x.pageNumber == y.pageNumber == z.pageNumber) {
      TextLeTransitive(x.createdAt, y.createdAt, z.createdAt);
    }
  }

  /** The ids SQLite visits, in order, when it runs the listing query on `t`:
      every matching row exactly once and no other, sorted by the `ORDER BY`
      key. Rows with equal keys may come in any order. */
  ghost predicate IsOrderedScan(t: map<string, Row>, page: Option<U32>, ids: seq<string>) {
    && (forall i, j :: 0 <= i < j < |ids| ==> ids[i] != ids[j])
    && (forall i :: 0 <= i < |ids| ==> ids[i] in t && Matches(page, t[ids[i]]))
    && (forall id :: id in t && Matches(page, t[id]) ==> id in ids)
    && (forall i, j :: 0 <= i < j < |ids| ==> InOrder(page, t[ids[i]], t[ids[j]]))
  }

  // ---------------------------------------------------------------------
  // Decoding rows

  /** The error text of a failed row read, as rusqlite formats it. */
  function TypeError(typ: string): string {
    "Invalid parameter name: Unknown annotation type: " + typ
  }

  /** Reading one row into an `Annotation` (database.rs lines 82-98): the
      kind is decoded first, then the page is read as `u32`; a position
      payload that does not parse becomes `None` rather than an error. */
  function ToAnnotation(id: string, r: Row, parse: string -> Option<PositionData>): (res: Result<Annotation>)
    ensures res.Ok? <==> r.typ in TypeNames && 0 <= r.pageNumber < 0x1_0000_0000
    ensures r.typ !in TypeNames ==> res == Err(TypeError(r.typ))
    ensures res.Ok? ==> && res.value.id == id && AsStr(res.value.annotationType) == r.typ
                        && res.value.pageNumber == r.pageNumber
                        && res.value.createdAt == r.createdAt && res.value.updatedAt == r.updatedAt
    ensures res.Ok? ==> && res.value.color == r.color && res.value.content == r.content
                        && res.value.positionData == (if r.positionData.Some? then parse(r.positionData.value) else None)
    ensures r.typ in TypeNames && !(0 <= r.pageNumber < 0x1_0000_0000) ==>
      res == Err("Integer " + IntText(r.pageNumber) + " out of range at index 2")
  {
    match FromStr(r.typ)
    case Err(_) => Err(TypeError(r.typ))
    case Ok(t) =>
      if 0 <= r.pageNumber < 0x1_0000_0000 then
        Ok(Annotation(id, t, r.pageNumber, r.color, r.content,
                      match r.positionData case Some(s) => parse(s) case None => None,
                      r.createdAt, r.updatedAt))
      else Err("Integer " + IntText(r.pageNumber) + " out of range at index 2")
  }

  /** The rows of a scan read one after another, stopping at the first that
      cannot be read. */
  function Listing(t: map<string, Row>, ids: seq<string>, parse: string -> Option<PositionData>): Result<seq<Annotation>>
    requires forall i :: 0 <= i < |ids| ==> ids[i] in t
  {
    if ids == [] then Ok([])
    else match ToAnnotation(ids[0], t[ids[0]], parse)
      case Err(e) => Err(e)
      case Ok(a) => Prepend([a], Listing(t, ids[1..], parse))
  }

  function Prepend(xs: seq<Annotation>, r: Result<seq<Annotation>>): Result<seq<Annotation>> {
    match r
    case Ok(ys) => Ok(xs + ys)
    case Err(e) => Err(e)
  }

  lemma PrependNothing(r: Result<seq<Annotation>>)
    ensures Prepend([], r) == r
  {
    if r.Ok? { assert [] + r.value == r.value; }
  }

  lemma PrependTwice(xs: seq<Annotation>, ys: seq<Annotation>, r: Result<seq<Annotation>>)
    ensures Prepend(xs, Prepend(ys, r)) == Prepend(xs + ys, r)
  {
    if r.Ok? { assert xs + (ys + r.value) == (xs + ys) + r.value; }
  }

  /** A listing succeeds exactly when every scanned row can be read, and then
      it holds those rows, decoded, in scan order. */
  lemma {:induction false} ListingPointwise(t: map<string, Row>, ids: seq<string>, parse: string -> Option<PositionData>)
    requires forall i :: 0 <= i < |ids| ==> ids[i] in t
    ensures Listing(t, ids, parse).Ok? <==> forall i :: 0 <= i < |ids| ==> ToAnnotation(ids[i], t[ids[i]], parse).Ok?
    ensures Listing(t, ids, parse).Ok? ==>
      && |Listing(t, ids, parse).value| == |ids|
      && forall i :: 0 <= i < |ids| ==> Listing(t, ids, parse).value[i] == ToAnnotation(ids[i], t[ids[i]], parse).value
  {
    if ids != [] {
      ListingPointwise(t, ids[1..], parse);
      if ToAnnotation(ids[0], t[ids[0]], parse).Ok? && Listing(t, ids[1..], parse).Ok? {
        var l := Listing(t, ids, parse).value;
        forall i | 0 <= i < |ids| ensures l[i] == ToAnnotation(ids[i], t[ids[i]], parse).value {
          if i > 0 { assert ids[1..][i - 1] == ids[i]; }
        }
      } else if ToAnnotation(ids[0], t[ids[0]], parse).Ok? {
        var i :| 0 <= i < |ids[1..]| && !ToAnnotation(ids[1..][i], t[ids[1..][i]], parse).Ok?;
        assert ids[1..][i] == ids[i + 1];
      }
    }
  }

  /** The annotation order of a listing: the `ORDER BY` key read off the
      returned records. */
  predicate ListedInOrder(page: Option<U32>, a: Annotation, b: Annotation) {
    if page.Some? then TextLe(a.createdAt, b.createdAt)
    else a.pageNumber < b.pageNumber || (a.pageNumber == b.pageNumber && TextLe(a.createdAt, b.createdAt))
  }

  /** What a successful listing means: exactly the annotations on the
      requested page (all of them without a filter), each once, sorted by
      the query's key; an empty page gives an empty list. */
  lemma ListingOfScan(t: map<string, Row>, page: Option<U32>, ids: seq<string>, parse: string -> Option<PositionData>)
    requires IsOrderedScan(t, page, ids)
    requires Listing(t, ids, parse).Ok?
    ensures var l := Listing(t, ids, parse).value;
      && (forall id :: (id in t && Matches(page, t[id])) <==> exists i :: 0 <= i < |l| && l[i].id == id)
      && (forall i, j :: 0 <= i < j < |l| ==> l[i].id != l[j].id)
      && (page.Some? ==> forall i :: 0 <= i < |l| ==> l[i].pageNumber == page.value)
      && (forall i, j :: 0 <= i < j < |l| ==> ListedInOrder(page, l[i], l[j]))
  {
    ListedKeys(t, ids, parse);
    var l := Listing(t, ids, parse).value;
    forall id | id in t && Matches(page, t[id]) ensures exists i :: 0 <= i < |l| && l[i].id == id {
      var i :| 0 <= i < |ids| && ids[i] == id;
      assert l[i].id == id;
    }
    forall i, j | 0 <= i < j < |l| ensures ListedInOrder(page, l[i], l[j]) {
      assert InOrder(page, t[ids[i]], t[ids[j]]);
    }
  }

  /** The record at each position of a successful listing carries the id,
      page and creation time of the row scanned at that position. */
  lemma ListedKeys(t: map<string, Row>, ids: seq<string>, parse: string -> Option<PositionData>)
    requires forall i :: 0 <= i < |ids| ==> ids[i] in t
    requires Listing(t, ids, parse).Ok?
    ensures var l := Listing(t, ids, parse).value;
      && |l| == |ids|
      && forall i :: 0 <= i < |l| ==>
           l[i].id == ids[i] && l[i].pageNumber == t[ids[i]].pageNumber && l[i].createdAt == t[ids[i]].createdAt
  {
    ListingPointwise(t, ids, parse);
  }

  /** A table whose rows all satisfy the schema constraints always lists. */
  lemma ConstrainedListingSucceeds(t: map<string, Row>, ids: seq<string>, parse: string -> Option<PositionData>)
    requires Constrained(t)
    requires forall i :: 0 <= i < |ids| ==> ids[i] in t
    ensures Listing(t, ids, parse).Ok?
  {
    ListingPointwise(t, ids, parse);
  }

  /** A page that holds no annotation lists as the empty sequence. */
  lemma EmptyPage(t: map<string, Row>, p: U32, ids: seq<string>, parse: string -> Option<PositionData>)
    requires IsOrderedScan(t, Some(p), ids)
    requires forall id :: id in t ==> t[id].pageNumber != p
    ensures Listing(t, ids, parse) == Ok([])
  {
  }

  // ---------------------------------------------------------------------
  // Existence of an ordered scan: insertion sort of the matching ids

  ghost predicate SortedIds(t: map<string, Row>, page: Option<U32>, ids: seq<string>)
    requires forall i :: 0 <= i < |ids| ==> ids[i] in t
  {
    forall i, j :: 0 <= i < j < |ids| ==> InOrder(page, t[ids[i]], t[ids[j]])
  }

  ghost predicate Distinct(ids: seq<string>) {
    forall i, j :: 0 <= i < j < |ids| ==> ids[i] != ids[j]
  }

  ghost function Insert(t: map<string, Row>, page: Option<U32>, id: string, ids: seq<string>): (r: seq<string>)
    requires id in t && forall i :: 0 <= i < |ids| ==> ids[i] in t
    ensures |r| == |ids| + 1
    ensures forall x :: x in r <==> x == id || x in ids
    ensures forall i :: 0 <= i < |r| ==> r[i] in t
  {
    if ids == [] then [id]
    else if InOrder(page, t[id], t[ids[0]]) then [id] + ids
    else [ids[0]] + Insert(t, page, id, ids[1..])
  }

  /** Putting an id in front of a sorted, distinct sequence keeps it so when
      the id comes before, and differs from, every element. */
  lemma ConsSorted(t: map<string, Row>, page: Option<U32>, id: string, ids: seq<string>)
    requires id in t && forall i :: 0 <= i < |ids| ==> ids[i] in t
    requires SortedIds(t, page, ids) && Distinct(ids)
    requires forall i :: 0 <= i < |ids| ==> InOrder(page, t[id], t[ids[i]]) && id != ids[i]
    ensures SortedIds(t, page, [id] + ids) && Distinct([id] + ids)
  {
    var r := [id] + ids;
    assert forall i :: 0 < i < |r| ==> r[i] == ids[i - 1];
  }

  lemma {:induction false} InsertSorted(t: map<string, Row>, page: Option<U32>, id: string, ids: seq<string>)
    requires id in t && forall i :: 0 <= i < |ids| ==> ids[i] in t
    requires SortedIds(t, page, ids) && Distinct(ids) && id !in ids
    ensures var r := Insert(t, page, id, ids); SortedIds(t, page, r) && Distinct(r)
    decreases |ids|
  {
    if ids == [] {
    } else if InOrder(page, t[id], t[ids[0]]) {
      forall i | 0 <= i < |ids| ensures InOrder(page, t[id], t[ids[i]]) && id != ids[i] {
        if i > 0 {
          InOrderTransitive(page, t[id], t[ids[0]], t[ids[i]]);
        }
      }
      ConsSorted(t, page, id, ids);
    } else {
      InOrderTotal(page, t[id], t[ids[0]]);
      var tail := ids[1..];
      var rest := Insert(t, page, id, tail);
      InsertSorted(t, page, id, tail);
      forall j | 0 <= j < |rest| ensures InOrder(page, t[ids[0]], t[rest[j]]) && ids[0] != rest[j] {
        assert rest[j] in rest;
        if rest[j] != id {
          var k :| 0 <= k < |tail| && tail[k] == rest[j];
          assert ids[k + 1] == rest[j];
        }
      }
      ConsSorted(t, page, ids[0], rest);
    }
  }

  ghost function SortIds(t: map<string, Row>, page: Option<U32>, keys: set<string>): (r: seq<string>)
    requires keys <= t.Keys
    ensures forall i :: 0 <= i < |r| ==> r[i] in t
    ensures forall x :: x in r <==> x in keys
    decreases keys
  {
    if keys == {} then []
    else
      var k :| k in keys;
      Insert(t, page, k, SortIds(t, page, keys - {k}))
  }

  lemma {:induction false} SortIdsSorted(t: map<string, Row>, page: Option<U32>, keys: set<string>)
    requires keys <= t.Keys
    ensures SortedIds(t, page, SortIds(t, page, keys)) && Distinct(SortIds(t, page, keys))
    decreases keys
  {
    if keys != {} {
      var k :| k in keys && SortIds(t, page, keys) == Insert(t, page, k, SortIds(t, page, keys - {k}));
      SortIdsSorted(t, page, keys - {k});
      InsertSorted(t, page, k, SortIds(t, page, keys - {k}));
    }
  }

  /** Whatever the table holds, the listing query has an answer. */
  lemma OrderedScanExists(t: map<string, Row>, page: Option<U32>)
    ensures exists ids :: IsOrderedScan(t, page, ids)
  {
    var keys := set id | id in t && Matches(page, t[id]);
    var ids := SortIds(t, page, keys);
    SortIdsSorted(t, page, keys);
    forall i | 0 <= i < |ids| ensures ids[i] in t && Matches(page, t[ids[i]]) {
      assert ids[i] in keys;
    }
    assert IsOrderedScan(t, page, ids);
  }

  // ---------------------------------------------------------------------
  // Writes

  /** The record `create_annotation` returns: the input's fields, the new id,
      and both timestamps set to the same clock reading. */
  function Created(id: string, input: CreateAnnotationInput, now: string): Annotation {
    Annotation(id, input.annotationType, input.pageNumber, input.color, input.content,
               input.positionData, now, now)
  }

  /** The serialised position payload bound to the insert or update. */
  function Serialized(pd: Option<PositionData>, serialize: PositionData -> string): Option<string> {
    match pd
    case Some(p) => Some(serialize(p))
    case None => None
  }

  /** The row `create_annotation` inserts. */
  function NewRow(input: CreateAnnotationInput, now: string, serialize: PositionData -> string): Row {
    Row(AsStr(input.annotationType), input.pageNumber, input.color, input.content,
        Serialized(input.positionData, serialize), now, now)
  }

  /** SQL `COALESCE(new, old)`. */
  function Coalesce<T>(given: Option<T>, stored: Option<T>): Option<T> {
    if given.Some? then given else stored
  }

  /** The `UPDATE ... SET color = COALESCE(?1, color), content = COALESCE(?2,
      content), position_data = COALESCE(?3, position_data), updated_at = ?4`
      applied to one row. */
  function Patched(r: Row, u: UpdateAnnotationInput, now: string, serialize: PositionData -> string): (p: Row)
    ensures p.typ == r.typ && p.pageNumber == r.pageNumber && p.createdAt == r.createdAt
    ensures p.updatedAt == now
  {
    r.(color := Coalesce(u.color, r.color),
       content := Coalesce(u.content, r.content),
       positionData := Coalesce(Serialized(u.positionData, serialize), r.positionData),
       updatedAt := now)
  }

  /** Applying the same update twice leaves the row as applying it once. */
  lemma PatchedIdempotent(r: Row, u: UpdateAnnotationInput, now: string, serialize: PositionData -> string)
    ensures Patched(Patched(r, u, now, serialize), u, now, serialize) == Patched(r, u, now, serialize)
  {
  }

  /** A serialiser and a parser that round-trip the payload `pd`. */
  predicate RoundTrips(pd: Option<PositionData>, serialize: PositionData -> string, parse: string -> Option<PositionData>) {
    pd.Some? ==> parse(serialize(pd.value)) == pd
  }

  /** The row `create_annotation` stores reads back as the record it returns,
      provided the position payload survives serialisation. */
  lemma NewRowReadsBack(id: string, input: CreateAnnotationInput, now: string,
                        serialize: PositionData -> string, parse: string -> Option<PositionData>)
    requires RoundTrips(input.positionData, serialize, parse)
    ensures ToAnnotation(id, NewRow(input, now, serialize), parse) == Ok(Created(id, input, now))
  {
    FromStrAsStr(input.annotationType);
  }

  /** Seen through a listing, an update replaces each field it supplies,
      keeps each it leaves out, stamps `updated_at` and keeps everything else. */
  lemma PatchedReadsBack(id: string, r: Row, u: UpdateAnnotationInput, now: string,
                         serialize: PositionData -> string, parse: string -> Option<PositionData>)
    requires ToAnnotation(id, r, parse).Ok?
    requires RoundTrips(u.positionData, serialize, parse)
    ensures var a := ToAnnotation(id, r, parse).value;
      ToAnnotation(id, Patched(r, u, now, serialize), parse)
        == Ok(a.(color := Coalesce(u.color, a.color),
                 content := Coalesce(u.content, a.content),
                 positionData := Coalesce(u.positionData, a.positionData),
                 updatedAt := now))
  {
  }

  const DuplicateId := "UNIQUE constraint failed: annotations.id"

  /** One open database connection: the two tables it holds. */
  class AnnotationStore {
    var annotations: map<string, Row>
    var metadata: map<string, string>

    /** Opening a connection on a database file holding `img` and running
        `init_db` on it (the tables already exist or are created empty). */
    constructor (img: Image)
      ensures Snapshot() == img
    {
      annotations := img.annotations;
      metadata := img.metadata;
    }

    /** What a checkpoint writes back to the database file. */
    function Snapshot(): Image
      reads this
    {
      Image(annotations, metadata)
    }

    /** `get_metadata`: the stored value, or `None` for a key never set. */
    function GetMetadata(key: string): (r: Option<string>)
      reads this
      ensures r.Some? <==> key in metadata
      ensures r.Some? ==> r.value == metadata[key]
    {
      if key in metadata then Some(metadata[key]) else None
    }

    /** `set_metadata`: `INSERT OR REPLACE`, so the last write wins. */
    method SetMetadata(key: string, value: string)
      modifies this
      ensures metadata == old(metadata)[key := value]
      ensures annotations == old(annotations)
      ensures GetMetadata(key) == Some(value)
      ensures forall k :: k != key ==> GetMetadata(k) == old(GetMetadata(k))
    {
      metadata := metadata[key := value];
    }

    /** `get_annotations`: read the rows of the ordered scan one by one into
        a vector, failing at the first row that cannot be read. */
    method GetAnnotations(page: Option<U32>, scan: seq<string>, parse: string -> Option<PositionData>)
      returns (r: Result<seq<Annotation>>)
      requires IsOrderedScan(annotations, page, scan)
      ensures r == Listing(annotations, scan, parse)
    {
      var found: seq<Annotation> := [];
      var i := 0;
      assert scan[i..] == scan;
      PrependNothing(Listing(annotations, scan, parse));
      while i < |scan|
        invariant 0 <= i <= |scan|
        invariant Listing(annotations, scan, parse) == Prepend(found, Listing(annotations, scan[i..], parse))
      {
        var id := scan[i];
        var a := ToAnnotation(id, annotations[id], parse);
        assert scan[i..][0] == id && scan[i..][1..] == scan[i + 1..];
        if a.Err? {
          return Err(a.error);
        }
        PrependTwice(found, [a.value], Listing(annotations, scan[i + 1..], parse));
        found := found + [a.value];
        i := i + 1;
      }
      assert scan[i..] == [];
      assert found + [] == found;
      return Ok(found);
    }

    /** `create_annotation`: insert one row under the id it is given and
        return the record. An id already in use violates the primary key. */
    method CreateAnnotation(input: CreateAnnotationInput, id: string, now: string, serialize: PositionData -> string)
      returns (r: Result<Annotation>)
      modifies this
      ensures r.Ok? <==> id !in old(annotations)
      ensures r.Ok? ==> r.value == Created(id, input, now)
      ensures r.Ok? ==> annotations == old(annotations)[id := NewRow(input, now, serialize)]
      ensures r.Err? ==> r.error == DuplicateId && annotations == old(annotations)
      ensures metadata == old(metadata)
      ensures old(Constrained(annotations)) ==> Constrained(annotations)
    {
      if id in annotations {
        return Err(DuplicateId);
      }
      annotations := annotations[id := NewRow(input, now, serialize)];
      return Ok(Created(id, input, now));
    }

    /** `update_annotation`: patch the row with the given id, if any; the
        result says whether one was affected. */
    method UpdateAnnotation(u: UpdateAnnotationInput, now: string, serialize: PositionData -> string)
      returns (existed: bool)
      modifies this
      ensures existed <==> u.id in old(annotations)
      ensures existed ==> annotations == old(annotations)[u.id := Patched(old(annotations)[u.id], u, now, serialize)]
      ensures !existed ==> annotations == old(annotations)
      ensures metadata == old(metadata)
      ensures old(Constrained(annotations)) ==> Constrained(annotations)
    {
      existed := u.id in annotations;
      if existed {
        annotations := annotations[u.id := Patched(annotations[u.id], u, now, serialize)];
      }
    }

    /** `delete_annotation`: remove the row with the given id, if any; the
        result says whether one was affected. */
    method DeleteAnnotation(id: string) returns (existed: bool)
      modifies this
      ensures existed <==> id in old(annotations)
      ensures annotations == old(annotations) - {id}
      ensures id !in annotations
      ensures metadata == old(metadata)
      ensures old(Constrained(annotations)) ==> Constrained(annotations)
    {
      existed := id in annotations;
      annotations := annotations - {id};
    }
  }
}
