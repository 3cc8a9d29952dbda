/** The record pipeline behind the data screen (src/DataScreen.tsx): tagging each
    loaded record with a positional id, discovering the field names, building the
    table columns and their cell rendering, and free-text search over the records'
    JSON text. */
module DataScreen {
  import opened Options
  import opened Strings
  import opened Decimal
  import opened Collections
  import opened Json

  /** One object of the loaded array, its properties in enumeration order. */
  type Record = seq<Member>

  // ---------------------------------------------------------------- records as objects

  /** `keysIn(record)`: the property names, in order. */
  function Names(r: Record): (names: seq<string>)
    ensures |names| == |r|
    ensures forall i :: 0 <= i < |r| ==> names[i] == r[i].name
  {
    if r == [] then [] else [r[0].name] + Names(r[1..])
  }

  /** The record read as a dictionary; a later property of the same name wins. */
  function AsMap(r: Record): map<string, Value> {
    if r == [] then map[] else map[r[0].name := r[0].value] + AsMap(r[1..])
  }

  lemma {:induction false} AsMapKeys(r: Record)
    ensures AsMap(r).Keys == Elements(Names(r))
  {
    if r != [] {
      AsMapKeys(r[1..]);
      assert Names(r) == [r[0].name] + Names(r[1..]);
    }
  }

  /** `record[k]`, `None` standing for `undefined`. */
  function Lookup(r: Record, k: string): Option<Value> {
    if k in AsMap(r) then Some(AsMap(r)[k]) else None
  }

  /** Assigning property `k`: an existing property keeps its place and takes the new
      value; a new one is appended. */
  function Put(r: Record, k: string, v: Value): (r': Record)
    ensures Names(r') == if k in Names(r) then Names(r) else Names(r) + [k]
  {
    if r == [] then [Member(k, v)]
    else if r[0].name == k then [Member(k, v)] + r[1..]
    else
      var tail := Put(r[1..], k, v);
      PutStep(r, k, tail);
      [r[0]] + tail
  }

  /** Assigning a name the first property does not have leaves that property first. */
  lemma PutStep(r: Record, k: string, tail: Record)
    requires r != [] && r[0].name != k
    requires Names(tail) == if k in Names(r[1..]) then Names(r[1..]) else Names(r[1..]) + [k]
    ensures Names([r[0]] + tail) == if k in Names(r) then Names(r) else Names(r) + [k]
  {
    NamesCons(r);
    var r' := [r[0]] + tail;
    NamesCons(r');
    assert r'[1..] == tail;
    assert k in Names(r) <==> k in Names(r[1..]);
    if k !in Names(r) {
      Associative([r[0].name], Names(r[1..]), [k]);
    }
  }

  lemma NamesCons(r: Record)
    requires r != []
    ensures Names(r) == [r[0].name] + Names(r[1..])
    ensures NoDuplicates(Names(r)) <==> r[0].name !in Names(r[1..]) && NoDuplicates(Names(r[1..]))
  {
    NoDuplicatesCons(r[0].name, Names(r[1..]));
  }

  lemma AsMapCons(r: Record)
    requires r != []
    ensures AsMap(r) == map[r[0].name := r[0].value] + AsMap(r[1..])
  {
  }

  lemma ReplaceFirst(k: string, v: Value, w: Value, m: map<string, Value>)
    requires k !in m
    ensures map[k := v] + m == (map[k := w] + m)[k := v]
  {
  }

  lemma ReplaceLater(a: string, w: Value, k: string, v: Value, m: map<string, Value>)
    requires a != k
    ensures map[a := w] + m[k := v] == (map[a := w] + m)[k := v]
  {
  }

  lemma MergeStep(m: map<string, Value>, k: string, v: Value, rest: map<string, Value>)
    ensures m[k := v] + rest == m + (map[k := v] + rest)
  {
  }

  /** On a record without repeated names, `Put` sets exactly the one entry. */
  lemma {:induction false} PutAsMap(r: Record, k: string, v: Value)
    requires NoDuplicates(Names(r))
    ensures AsMap(Put(r, k, v)) == AsMap(r)[k := v]
  {
    if r != [] {
      NamesCons(r);
      AsMapCons(r);
      var r' := Put(r, k, v);
      AsMapCons(r');
      if r[0].name == k {
        assert r'[0] == Member(k, v) && r'[1..] == r[1..];
        AsMapKeys(r[1..]);
        ReplaceFirst(k, v, r[0].value, AsMap(r[1..]));
      } else {
        PutAsMap(r[1..], k, v);
        assert r'[0] == r[0] && r'[1..] == Put(r[1..], k, v);
        ReplaceLater(r[0].name, r[0].value, k, v, AsMap(r[1..]));
      }
    }
  }

  /** `Put` keeps the names distinct and adds `k` to them. */
  lemma PutNames(t: Record, k: string, v: Value)
    requires NoDuplicates(Names(t))
    ensures NoDuplicates(Names(Put(t, k, v)))
    ensures Elements(Names(Put(t, k, v))) == Elements(Names(t)) + {k}
  {
    if k !in Names(t) {
      NoDuplicatesSnoc(Names(t), k);
    }
  }

  /** `{...t, ...src}` built on `t`: the properties of `src` assigned in order. */
  function Spread(t: Record, src: Record): Record
    decreases |src|
  {
    if src == [] then t else Spread(Put(t, src[0].name, src[0].value), src[1..])
  }

  /** Spreading keeps the names distinct: the target's names come first, then the
      source's new names in first-seen order. */
  lemma {:induction false} SpreadNames(t: Record, src: Record)
    requires NoDuplicates(Names(t))
    ensures NoDuplicates(Names(Spread(t, src)))
    ensures Names(Spread(t, src)) == Names(t) + Dedup(Names(src), Elements(Names(t)))
    decreases |src|
  {
    if src == [] {
      assert Names(t) + [] == Names(t);
    } else {
      var k, v := src[0].name, src[0].value;
      var t' := Put(t, k, v);
      PutNames(t, k, v);
      SpreadNames(t', src[1..]);
      NamesCons(src);
      var rest := Names(src[1..]);
      var seen := Elements(Names(t));
      DedupCons(k, rest, seen);
      if k in Names(t) {
        assert seen + {k} == seen;
      } else {
        Associative(Names(t), [k], Dedup(rest, seen + {k}));
      }
    }
  }

  /** Spreading lets the source's values win over the target's. */
  lemma {:induction false} SpreadAsMap(t: Record, src: Record)
    requires NoDuplicates(Names(t))
    ensures AsMap(Spread(t, src)) == AsMap(t) + AsMap(src)
    decreases |src|
  {
    if src != [] {
      var k, v := src[0].name, src[0].value;
      PutNames(t, k, v);
      PutAsMap(t, k, v);
      SpreadAsMap(Put(t, k, v), src[1..]);
      AsMapCons(src);
      MergeStep(AsMap(t), k, v, AsMap(src[1..]));
    }
  }

  // ---------------------------------------------------------------- tagging rows

  /** `index.toFixed(2)` for an array index: the numeral followed by ".00". */
  function ToFixed2(index: nat): string {
    NatToString(index) + ".00"
  }

  /** Distinct indices give distinct ids. */
  lemma ToFixed2Injective(i: nat, j: nat)
    requires ToFixed2(i) == ToFixed2(j)
    ensures i == j
  {
    var a, b := NatToString(i), NatToString(j);
    assert |a| == |b|;
    assert a == ToFixed2(i)[..|a|] && b == ToFixed2(j)[..|b|];
    NatToStringInjective(i, j);
  }

  /** `{ key: index.toFixed(2), ...dataRow }`. */
  function TagRow(index: nat, row: Record): (tagged: Record)
    ensures NoDuplicates(Names(tagged))
    ensures Names(tagged) == ["key"] + Dedup(Names(row), {"key"})
    ensures AsMap(tagged) == map["key" := Str(ToFixed2(index))] + AsMap(row)
  {
    var t := [Member("key", Str(ToFixed2(index)))];
    assert Names(t) == ["key"];
    assert Elements(Names(t)) == {"key"};
    SpreadNames(t, row);
    SpreadAsMap(t, row);
    Spread(t, row)
  }

  /** `processInitialData`: every row tagged with its position. */
  function ProcessInitialData(data: seq<Record>): (origin: seq<Record>)
    ensures |origin| == |data|
    ensures forall i :: 0 <= i < |data| ==> origin[i] == TagRow(i, data[i])
  {
    seq(|data|, i requires 0 <= i < |data| => TagRow(i, data[i]))
  }

  /** A tagged row has every field of the original row with its value, and a `key`
      that is the row's own `key` when it has one and its position otherwise. */
  lemma TaggedRowFields(data: seq<Record>, i: nat, k: string)
    requires i < |data|
    ensures var row := ProcessInitialData(data)[i];
      && (k != "key" ==> Lookup(row, k) == Lookup(data[i], k))
      && (k == "key" && Lookup(data[i], k).Some? ==> Lookup(row, k) == Lookup(data[i], k))
      && (k == "key" && Lookup(data[i], k).None? ==> Lookup(row, k) == Some(Str(ToFixed2(i))))
  {
  }

  /** Rows without a `key` field of their own get pairwise distinct ids. */
  lemma TaggedIdsDistinct(data: seq<Record>, i: nat, j: nat)
    requires i < |data| && j < |data| && i != j
    requires Lookup(data[i], "key").None? && Lookup(data[j], "key").None?
    ensures Lookup(ProcessInitialData(data)[i], "key") != Lookup(ProcessInitialData(data)[j], "key")
  {
    if ToFixed2(i) == ToFixed2(j) {
      ToFixed2Injective(i, j);
    }
  }

  /** Because the row is spread after the id, a row's own `key` can repeat another
      row's id: here both rows end up with key "1.00". */
  lemma OwnKeyCanRepeatId()
    ensures var data := [[Member("key", Str("1.00"))], []];
      Lookup(ProcessInitialData(data)[0], "key") == Lookup(ProcessInitialData(data)[1], "key")
  {
    var data := [[Member("key", Str("1.00"))], []];
    assert NatToString(1) == "1";
    assert ToFixed2(1) == "1.00";
    assert AsMap(data[0]) == map["key" := Str("1.00")];
    assert AsMap(data[1]) == map[];
    var origin := ProcessInitialData(data);
    assert AsMap(origin[0])["key"] == Str("1.00");
    assert AsMap(origin[1])["key"] == Str("1.00");
  }

  // ---------------------------------------------------------------- field discovery

  /** `flatMap(keysIn)`: every record's names, records in order. The `flatten` that
      follows it changes nothing, since the names are strings, not arrays. */
  function AllNames(data: seq<Record>): seq<string> {
    if data == [] then [] else Names(data[0]) + AllNames(data[1..])
  }

  lemma {:induction false} AllNamesMembers(data: seq<Record>, x: string)
    ensures x in AllNames(data) <==> exists i :: 0 <= i < |data| && x in Names(data[i])
  {
    if data != [] {
      AllNamesMembers(data[1..], x);
      assert forall i :: 1 <= i < |data| ==> data[1..][i - 1] == data[i];
    }
  }

  /** `getFields`: the distinct field names, in first-seen order, without "key". */
  function GetFields(data: seq<Record>): (fields: seq<string>)
    ensures NoDuplicates(fields)
    ensures "key" !in fields
    ensures forall x :: x in fields <==> x != "key" && x in AllNames(data)
    ensures forall i, j :: 0 <= i < j < |fields| ==>
      FirstIndex(AllNames(data), fields[i]) < FirstIndex(AllNames(data), fields[j])
  {
    WithoutDedup(AllNames(data), {}, "key");
    assert {} + {"key"} == {"key"};
    Without(Uniq(AllNames(data)), "key")
  }

  /** `getFields` is the deduplication of all names with "key" counted as seen. */
  lemma GetFieldsIsDedup(data: seq<Record>)
    ensures GetFields(data) == Dedup(AllNames(data), {"key"})
  {
    WithoutDedup(AllNames(data), {}, "key");
    assert {} + {"key"} == {"key"};
  }

  lemma ExampleNames(data: seq<Record>)
    requires data == [[Member("a", Num(1)), Member("b", Num(2))], [Member("b", Num(3)), Member("c", Num(4))]]
    ensures AllNames(data) == ["a"] + (["b"] + (["b"] + ["c"]))
  {
    assert Names(data[0]) == ["a", "b"];
    assert Names(data[1]) == ["b", "c"];
    assert AllNames(data[1..]) == ["b", "c"];
  }

  lemma ExampleDedupTail<T(!new)>(y: T, z: T, seen: set<T>)
    requires y in seen && z !in seen
    ensures Dedup([y] + [z], seen) == [z]
  {
    DedupCons(z, [], seen);
    DedupCons(y, [z], seen);
  }

  lemma ExampleDedupMiddle<T(!new)>(y: T, z: T, seen: set<T>)
    requires y !in seen && z !in seen && y != z
    ensures Dedup([y] + ([y] + [z]), seen) == [y, z]
  {
    DedupCons(y, [y] + [z], seen);
    ExampleDedupTail(y, z, seen + {y});
  }

  /** Deduplicating `x, y, y, z` against `{k}` for four distinct values. */
  lemma ExampleDedupShape<T(!new)>(k: T, x: T, y: T, z: T)
    requires k != x && k != y && k != z && x != y && x != z && y != z
    ensures Dedup([x] + ([y] + ([y] + [z])), {k}) == [x, y, z]
  {
    DedupCons(x, [y] + ([y] + [z]), {k});
    ExampleDedupMiddle(y, z, {k} + {x});
  }

  lemma ExampleDedup()
    ensures Dedup(["a"] + (["b"] + (["b"] + ["c"])), {"key"}) == ["a", "b", "c"]
  {
    ExampleDedupShape("key", "a", "b", "c");
  }

  /** Two records sharing a field: each name once, in first-seen order. */
  lemma GetFieldsExample()
    ensures GetFields([[Member("a", Num(1)), Member("b", Num(2))], [Member("b", Num(3)), Member("c", Num(4))]])
      == ["a", "b", "c"]
  {
    var data := [[Member("a", Num(1)), Member("b", Num(2))], [Member("b", Num(3)), Member("c", Num(4))]];
    ExampleNames(data);
    GetFieldsIsDedup(data);
    ExampleDedup();
  }

  /** A name other than "key" is a field exactly when some record has it. */
  lemma FieldIffSomeRecordHasIt(data: seq<Record>, x: string)
    requires x != "key"
    ensures x in GetFields(data) <==> exists i :: 0 <= i < |data| && x in Names(data[i])
  {
    AllNamesMembers(data, x);
  }

  /** The names of one tagged row deduplicate like the row's own names, once "key"
      has been seen. */
  lemma TaggedHead(names: seq<string>, seen: set<string>)
    requires "key" in seen
    ensures Dedup(["key"] + Dedup(names, {"key"}), seen) == Dedup(names, seen)
    ensures seen + Elements(["key"] + Dedup(names, {"key"})) == seen + Elements(names)
  {
    DedupAfterSeen("key", names, seen);
    ElementsAfterSeen("key", names, seen);
  }

  lemma {:induction false} DedupTaggedNames(tagged: seq<Record>, data: seq<Record>, seen: set<string>)
    requires |tagged| == |data| && "key" in seen
    requires forall i :: 0 <= i < |data| ==> Names(tagged[i]) == ["key"] + Dedup(Names(data[i]), {"key"})
    ensures Dedup(AllNames(tagged), seen) == Dedup(AllNames(data), seen)
    decreases |data|
  {
    if data != [] {
      var a, b := Names(tagged[0]), Names(data[0]);
      DedupAppend(a, AllNames(tagged[1..]), seen);
      DedupAppend(b, AllNames(data[1..]), seen);
      TaggedHead(b, seen);
      DedupTaggedNames(tagged[1..], data[1..], seen + Elements(b));
    }
  }

  /** Tagging does not change the field list: the synthetic id is never a field. */
  lemma FieldsIgnoreTagging(data: seq<Record>)
    ensures GetFields(ProcessInitialData(data)) == GetFields(data)
  {
    var origin := ProcessInitialData(data);
    GetFieldsIsDedup(origin);
    GetFieldsIsDedup(data);
    DedupTaggedNames(origin, data, {"key"});
  }

  // ---------------------------------------------------------------- columns

  /** An antd column: title, the record property it shows, and its React key. */
  datatype Column = Column(title: string, dataIndex: string, key: string)

  /** `fieldsToColumns`: one column per selected field, in selection order. lodash
      treats a selection that is not there yet (`undefined`) as empty. */
  function FieldsToColumns(selected: Option<seq<string>>): (columns: seq<Column>)
    ensures |columns| == |selected.GetOr([])|
    ensures forall i :: 0 <= i < |columns| ==>
      var f := selected.GetOr([])[i];
      columns[i].title == f && columns[i].dataIndex == f && columns[i].key == f
  {
    var fields := selected.GetOr([]);
    seq(|fields|, i requires 0 <= i < |fields| => Column(fields[i], fields[i], fields[i]))
  }

  /** With the field list as the selection (the form's initial value) the column keys
      are distinct and no column shows the synthetic id. */
  lemma InitialColumnsDistinct(data: seq<Record>)
    ensures var columns := FieldsToColumns(Some(GetFields(ProcessInitialData(data))));
      && (forall i, j :: 0 <= i < j < |columns| ==> columns[i].key != columns[j].key)
      && (forall i :: 0 <= i < |columns| ==> columns[i].dataIndex != "key")
  {
  }

  /** What a cell shows: preformatted JSON text, or the value as it is. */
  datatype Cell = Pre(text: string) | AsIs(value: Option<Value>)

  /** A column's `render`: values whose `typeof` is "object" (objects, arrays and
      `null`) as JSON indented by two spaces, everything else as it is. */
  function Render(text: Option<Value>): (cell: Cell)
    ensures cell.Pre? <==> text.Some? && IsObjectLike(text.value)
    ensures cell.Pre? ==> Parse(cell.text) == text
    ensures cell.AsIs? ==> cell.value == text
  {
    if text.Some? && IsObjectLike(text.value) then Pre(ToJson(text.value, 2)) else AsIs(text)
  }

  /** The cell a column shows for a record. */
  function RenderCell(column: Column, record: Record): Cell {
    Render(Lookup(record, column.dataIndex))
  }

  /** The cell column `i` shows for a record: the rendering of the record's value for
      the `i`-th selected field, and `undefined` shown as it is when the record has no
      such field. */
  lemma ColumnCell(selected: Option<seq<string>>, i: nat, record: Record)
    requires i < |selected.GetOr([])|
    ensures var f := selected.GetOr([])[i];
      && (f !in AsMap(record) ==> RenderCell(FieldsToColumns(selected)[i], record) == AsIs(None))
      && (f in AsMap(record) ==> RenderCell(FieldsToColumns(selected)[i], record) == Render(Some(AsMap(record)[f])))
  {
  }

  // ---------------------------------------------------------------- search

  /** `JSON.stringify(record)`. */
  function Serialize(r: Record): string {
    ToJson(Obj(r), 0)
  }

  /** `JSON.parse` of a record's text; `None` where it throws or gives a non-object. */
  function ParseRecord(text: string): Option<Record> {
    match Parse(text)
    case Some(Obj(ms)) => Some(ms)
    case _ => None
  }

  /** A record's text reads back as the record. */
  lemma ParseSerialize(r: Record)
    ensures ParseRecord(Serialize(r)) == Some(r)
  {
  }

  /** The filter callback on a record's text. */
  function TextMatcher(search: string): string -> bool {
    text => Contains(Lower(text), search)
  }

  /** The same test, on the record itself. */
  function Matcher(search: string): Record -> bool {
    r => Contains(Lower(Serialize(r)), search)
  }

  /** `searchData(search)(data)`: stringify every record, keep the texts whose
      lower-cased form contains `search`, parse those back. The result is exactly the
      records that match, in their original order. */
  function SearchData(search: string, data: seq<Record>): (found: seq<Record>)
    ensures found == Filter(data, Matcher(search))
  {
    var kept := Filter(Map(data, Serialize), TextMatcher(search));
    KeptTextsParse(search, data);
    ParseAll(kept)
  }

  /** `map(JSON.parse)` over texts that each hold an object. */
  function ParseAll(texts: seq<string>): (records: seq<Record>)
    requires forall k :: 0 <= k < |texts| ==> ParseRecord(texts[k]).Some?
    ensures |records| == |texts|
    ensures forall k :: 0 <= k < |texts| ==> ParseRecord(texts[k]) == Some(records[k])
  {
    seq(|texts|, k requires 0 <= k < |texts| => ParseRecord(texts[k]).value)
  }

  /** The texts the filter keeps are those of the matching records, in order, and
      they parse back to those records. */
  lemma KeptTextsParse(search: string, data: seq<Record>)
    ensures var kept := Filter(Map(data, Serialize), TextMatcher(search));
      (forall k :: 0 <= k < |kept| ==> ParseRecord(kept[k]).Some?)
      && ParseAll(kept) == Filter(data, Matcher(search))
  {
    FilterMap(data, Serialize, TextMatcher(search), Matcher(search));
    var records := Filter(data, Matcher(search));
    var kept := Map(records, Serialize);
    forall k | 0 <= k < |records| ensures ParseRecord(kept[k]) == Some(records[k]) {
      ParseSerialize(records[k]);
    }
    var parsed := ParseAll(kept);
    forall k | 0 <= k < |records| ensures parsed[k] == records[k] {
    }
  }

  /** The search result is a subsequence of the records. */
  lemma SearchIsSubsequence(search: string, data: seq<Record>)
    ensures IsSubsequence(SearchData(search, data), data)
    ensures forall r :: r in SearchData(search, data) <==> r in data && Contains(Lower(Serialize(r)), search)
  {
  }

  /** The empty search keeps every record. */
  lemma EmptySearchKeepsAll(data: seq<Record>)
    ensures SearchData("", data) == data
  {
    forall i | 0 <= i < |data| ensures Matcher("")(data[i]) {
      EmptyNeedle(Lower(Serialize(data[i])));
    }
    FilterAll(data, Matcher(""));
  }

  /** Searching what a search found finds the same records. */
  lemma SearchIdempotent(search: string, data: seq<Record>)
    ensures SearchData(search, SearchData(search, data)) == SearchData(search, data)
  {
    FilterIdempotent(data, Matcher(search));
  }

  /** `handleApplyFilter`: a missing search value counts as the empty string, and the
      search value is lower-cased before filtering. */
  function ApplyFilter(search: Option<string>, origin: seq<Record>): (found: seq<Record>)
    ensures found == Filter(origin, Matcher(Lower(search.GetOr(""))))
  {
    SearchData(Lower(search.GetOr("")), origin)
  }

  /** Without a search value every record stays. */
  lemma NoSearchKeepsAll(origin: seq<Record>)
    ensures ApplyFilter(None, origin) == origin
  {
    assert Lower("") == "";
    EmptySearchKeepsAll(origin);
  }

  /** A record whose JSON text contains the search value, in any letter case, stays. */
  lemma VerbatimMatchKept(search: string, origin: seq<Record>, r: Record)
    requires r in origin && Contains(Serialize(r), search)
    ensures r in ApplyFilter(Some(search), origin)
  {
    LowerKeepsContains(Serialize(r), search);
    MatchingRecordKept(Lower(search), origin, r);
  }

  /** A record whose lower-cased text contains the search string is found. */
  lemma MatchingRecordKept(search: string, data: seq<Record>, r: Record)
    requires r in data && Contains(Lower(Serialize(r)), search)
    ensures r in SearchData(search, data)
  {
    assert Matcher(search)(r);
  }

  // ---------------------------------------------------------------- the screen

  /** What the screen shows for the loaded array, the selected fields and the search
      value: an empty-state message for an empty array, otherwise the field check
      boxes, the columns and the filtered rows. */
  datatype Screen = NoData | Table(fields: seq<string>, columns: seq<Column>, rows: seq<Record>)

  function View(data: seq<Record>, selected: Option<seq<string>>, search: Option<string>): (screen: Screen)
    ensures screen.NoData? <==> |data| == 0
    ensures screen.Table? ==> screen.fields == GetFields(data)
    ensures screen.Table? ==> IsSubsequence(screen.rows, ProcessInitialData(data))
    ensures screen.Table? && search.None? ==> screen.rows == ProcessInitialData(data)
    ensures screen.Table? ==>
      screen.rows == Filter(ProcessInitialData(data), Matcher(Lower(search.GetOr(""))))
    ensures screen.Table? ==> screen.columns == FieldsToColumns(selected)
  {
    if |data| == 0 then NoData
    else
      var origin := ProcessInitialData(data);
      FieldsIgnoreTagging(data);
      NoSearchKeepsAll(origin);
      Table(GetFields(origin), FieldsToColumns(selected), ApplyFilter(search, origin))
  }
}
