/** The one-off colon-line parser (script.js): every line of a text of
    "Name: value" lines becomes an entry of an object whose keys are the names
    lower-cased with spaces turned into underscores. */
module Script {
  import opened Options
  import opened Strings
  import opened Collections

  /** Removes one carriage return from the end of a line. */
  function DropCR(line: string): string {
    if |line| > 0 && line[|line| - 1] == '\r' then line[..|line| - 1] else line
  }

  lemma NoLineFeedInPieces(text: string)
    ensures forall k :: 0 <= k < |Split(text, "\n")| ==> '\n' !in Split(text, "\n")[k]
  {
    var pieces := Split(text, "\n");
    forall k | 0 <= k < |pieces| ensures '\n' !in pieces[k] {
      ContainsChar(pieces[k], '\n');
    }
  }

  /** `text.split(/\r?\n/)`: the pieces between line feeds, where a piece followed
      by a line feed also loses the one carriage return just before it. */
  function SplitLines(text: string): (lines: seq<string>)
    ensures |lines| == CountChar(text, '\n') + 1
    ensures forall k :: 0 <= k < |lines| ==> '\n' !in lines[k]
  {
    var pieces := Split(text, "\n");
    SplitCharCount(text, '\n');
    NoLineFeedInPieces(text);
    seq(|pieces|, k requires 0 <= k < |pieces| =>
      if k < |pieces| - 1 then DropCR(pieces[k]) else pieces[k])
  }

  /** Text without carriage returns is its lines joined by line feeds. */
  lemma SplitLinesJoin(text: string)
    requires '\r' !in text
    ensures Join(SplitLines(text), "\n") == text
  {
    var pieces := Split(text, "\n");
    SplitKeepsAbsent(text, "\n", '\r');
    assert SplitLines(text) == pieces;
  }

  /** The line break that `/\r?\n/` matches after a piece of the split on line
      feeds: the piece's trailing carriage return with the line feed, if it has one. */
  function LineBreak(piece: string): string {
    if |piece| > 0 && piece[|piece| - 1] == '\r' then "\r\n" else "\n"
  }

  /** The breaks between the lines of `text`, one per line feed, in order. */
  function Breaks(text: string): (breaks: seq<string>)
    ensures |breaks| + 1 == |SplitLines(text)|
  {
    var pieces := Split(text, "\n");
    seq(|pieces| - 1, k requires 0 <= k < |pieces| - 1 => LineBreak(pieces[k]))
  }

  /** Each line followed by the break after it; the last line by none. */
  function Unsplit(lines: seq<string>, breaks: seq<string>): string
    requires |lines| == |breaks| + 1
  {
    if breaks == [] then lines[0] else lines[0] + breaks[0] + Unsplit(lines[1..], breaks[1..])
  }

  predicate EndsInCR(line: string) {
    |line| > 0 && line[|line| - 1] == '\r'
  }

  /** A piece without its carriage return, then the break, is the piece then a line feed. */
  lemma DropCRBreak(piece: string)
    ensures DropCR(piece) + LineBreak(piece) == piece + "\n"
  {
    if EndsInCR(piece) {
      assert piece == piece[..|piece| - 1] + "\r";
    }
  }

  /** Lines and breaks that rebuild, one by one, the pieces followed by `sep` rebuild
      their join. */
  lemma {:induction false} UnsplitJoin(lines: seq<string>, breaks: seq<string>, pieces: seq<string>, sep: string)
    requires |lines| == |breaks| + 1 == |pieces|
    requires forall k :: 0 <= k < |breaks| ==> lines[k] + breaks[k] == pieces[k] + sep
    requires lines[|breaks|] == pieces[|breaks|]
    ensures Unsplit(lines, breaks) == Join(pieces, sep)
    decreases |breaks|
  {
    if breaks != [] {
      UnsplitJoin(lines[1..], breaks[1..], pieces[1..], sep);
      assert lines[0] + breaks[0] == pieces[0] + sep;
    }
  }

  /** `text.split(/\r?\n/)` loses nothing but its separators: the lines, each followed
      by its own break, give the text back; a break is a line feed with or without a
      carriage return before it, and the carriage return goes into the break whenever
      there is one (a line followed by a bare line feed does not end in `\r`). */
  lemma SplitLinesRoundTrip(text: string)
    ensures Unsplit(SplitLines(text), Breaks(text)) == text
    ensures forall k :: 0 <= k < |Breaks(text)| ==> Breaks(text)[k] == "\r\n" || Breaks(text)[k] == "\n"
    ensures forall k :: 0 <= k < |Breaks(text)| && Breaks(text)[k] == "\n" ==> !EndsInCR(SplitLines(text)[k])
  {
    var pieces, lines, breaks := Split(text, "\n"), SplitLines(text), Breaks(text);
    forall k | 0 <= k < |breaks| ensures lines[k] + breaks[k] == pieces[k] + "\n" {
      DropCRBreak(pieces[k]);
    }
    UnsplitJoin(lines, breaks, pieces, "\n");
  }

  /** A carriage return before a line feed does not stay in the line. */
  lemma SplitLinesCRLF()
    ensures SplitLines("a\r\nb") == ["a", "b"]
  {
    var text := "a\r\nb";
    assert text[2..3] == "\n";
    assert text[0..1][0] == 'a' && text[1..2][0] == '\r';
    IndexOfIs(text, "\n", 2);
    ContainsChar("b", '\n');
    SplitHead(text, "\n");
    SplitHead("b", "\n");
    assert text[3..] == "b";
    assert text[..2] == "a\r";
    assert Split(text, "\n") == ["a\r", "b"];
    assert DropCR("a\r") == "a";
    var lines := SplitLines(text);
    assert |lines| == 2 && lines[0] == "a" && lines[1] == "b";
  }

  /** `key.toLowerCase().replaceAll(' ', '_')`. */
  function NormaliseKey(key: string): (k: string)
    ensures |k| == |key|
    ensures ' ' !in k
    ensures forall i :: 0 <= i < |key| ==> k[i] == if key[i] == ' ' then '_' else LowerChar(key[i])
  {
    var lower := Lower(key);
    seq(|lower|, i requires 0 <= i < |lower| => if lower[i] == ' ' then '_' else lower[i])
  }

  /** A normalised key is its own normal form. */
  lemma NormaliseKeyIdempotent(key: string)
    ensures NormaliseKey(NormaliseKey(key)) == NormaliseKey(key)
  {
    var k := NormaliseKey(key);
    forall i | 0 <= i < |k| ensures NormaliseKey(k)[i] == k[i] {
      assert !IsUpper(k[i]);
    }
  }

  /** Names differing only in letter case, or in spaces against underscores, land
      on the same key. */
  lemma NormaliseKeyMerges()
    ensures NormaliseKey("First Name") == NormaliseKey("first_name") == "first_name"
  {
  }

  /** `const [key, value] = field.split(': ')`: the key is the text before the first
      ": ", the value the text between the first and the second ": " (or the rest of
      the line), and `undefined` when the line has no ": ". */
  function SplitKeyValue(field: string): (pair: (string, Option<string>))
    ensures var i := IndexOf(field, ": ");
      && (i < 0 ==> pair == (field, None))
      && (i >= 0 ==>
            var rest := field[i + 2..];
            var j := IndexOf(rest, ": ");
            pair == (field[..i], Some(if j < 0 then rest else rest[..j])))
  {
    var parts := Split(field, ": ");
    SplitHead(field, ": ");
    var i := IndexOf(field, ": ");
    var pair := (parts[0], if |parts| >= 2 then Some(parts[1]) else None);
    if i < 0 then pair
    else
      SplitHead(field[i + 2..], ": ");
      pair
  }

  /** A "key: value" line whose parts hold no ": " gives back the key and the value. */
  lemma SplitKeyValueRoundTrip(key: string, value: string)
    requires !Contains(key, ": ") && !Contains(value, ": ")
    ensures SplitKeyValue(key + ": " + value) == (key, Some(value))
  {
    var line := key + ": " + value;
    assert OccursAt(line, ": ", |key|) by {
      assert line[|key|..|key| + 2] == ": ";
    }
    forall j | 0 <= j < |key| ensures !OccursAt(line, ": ", j) {
      if j + 2 <= |key| {
        if OccursAt(line, ": ", j) {
          assert key[j..j + 2] == line[j..j + 2];
          assert OccursAt(key, ": ", j);
          assert false;
        }
      } else {
        assert line[j + 1] == ':';
      }
    }
    IndexOfIs(line, ": ", |key|);
    assert line[|key| + 2..] == value;
    assert line[..|key|] == key;
  }

  /** The entry a line writes: its normalised key and its value. */
  function LineKey(field: string): string {
    NormaliseKey(SplitKeyValue(field).0)
  }

  function LineValue(field: string): Option<string> {
    SplitKeyValue(field).1
  }

  /** The name under which a plain object's prototype is reached. Assigning it a
      string or `undefined` goes to the inherited setter, which ignores anything but an
      object or `null`, so no property is created. */
  const ProtoKey: string := "__proto__"

  /** `obj[key] = value` for one line: every key but `ProtoKey` is set; that one
      leaves the object as it was. */
  function Write(obj: map<string, Option<string>>, field: string): map<string, Option<string>> {
    var k := LineKey(field);
    if k == ProtoKey then obj else obj[k := LineValue(field)]
  }

  /** The object after writing the entries of `lines` in order. */
  function Collect(lines: seq<string>): map<string, Option<string>> {
    if lines == [] then map[]
    else Write(Collect(lines[..|lines| - 1]), lines[|lines| - 1])
  }

  /** Every line but those whose key is `ProtoKey` writes one entry: the keys are
      exactly the lines' keys, that one excepted. */
  lemma {:induction false} CollectKeys(lines: seq<string>)
    ensures Collect(lines).Keys == Image(lines, LineKey) - {ProtoKey}
  {
    if lines != [] {
      var init := lines[..|lines| - 1];
      CollectKeys(init);
      ImageSnoc(lines, LineKey);
      WithoutAdded(Image(init, LineKey), LineKey(lines[|lines| - 1]), ProtoKey);
    }
  }

  /** Adding `k` then removing `p` adds `k` unless it is `p`. */
  lemma WithoutAdded<T>(a: set<T>, k: T, p: T)
    ensures (a + {k}) - {p} == if k == p then a - {p} else (a - {p}) + {k}
  {
  }

  /** A line whose key normalises to `ProtoKey` leaves the object as it was, so a
      text of that one line gives an empty object. */
  lemma ProtoLineWritesNothing(obj: map<string, Option<string>>)
    ensures Write(obj, "__PROTO__: x") == obj
    ensures Collect(["__PROTO__: x"]) == map[]
  {
    var line := "__PROTO__" + ": " + "x";
    assert line == "__PROTO__: x";
    FirstCharAbsent("__PROTO__", ": ");
    FirstCharAbsent("x", ": ");
    SplitKeyValueRoundTrip("__PROTO__", "x");
    UpperProtoKey();
    assert LineKey(line) == ProtoKey;
    assert [line][..0] == [];
    assert Collect([line]) == Write(map[], line);
  }

  /** The key of a line is compared after normalisation: "__PROTO__" is `ProtoKey`. */
  lemma UpperProtoKey()
    ensures NormaliseKey("__PROTO__") == ProtoKey
  {
    var k := NormaliseKey("__PROTO__");
    forall i | 0 <= i < 9 ensures k[i] == ProtoKey[i] {
    }
  }

  /** Writing one more line is one more assignment. */
  lemma CollectSnoc(lines: seq<string>, i: nat)
    requires i < |lines|
    ensures Collect(lines[..i + 1]) == Write(Collect(lines[..i]), lines[i])
  {
    assert lines[..i + 1][..i] == lines[..i];
  }

  /** The last line with a given key decides that key's value. */
  lemma {:induction false} CollectLastWriteWins(lines: seq<string>, i: nat)
    requires i < |lines|
    requires forall j :: i < j < |lines| ==> LineKey(lines[j]) != LineKey(lines[i])
    ensures LineKey(lines[i]) != ProtoKey ==> LineKey(lines[i]) in Collect(lines)
    ensures LineKey(lines[i]) != ProtoKey ==> Collect(lines)[LineKey(lines[i])] == LineValue(lines[i])
  {
    if i < |lines| - 1 {
      var init, last := lines[..|lines| - 1], lines[|lines| - 1];
      assert init[i] == lines[i];
      assert forall j :: i < j < |init| ==> init[j] == lines[j];
      CollectLastWriteWins(init, i);
      WriteOther(Collect(init), last, LineKey(lines[i]));
    }
  }

  /** Writing a line leaves the entries under other keys as they were. */
  lemma WriteOther(obj: map<string, Option<string>>, field: string, k: string)
    requires LineKey(field) != k
    ensures k in Write(obj, field) <==> k in obj
    ensures k in obj ==> Write(obj, field)[k] == obj[k]
  {
  }

  /** No stored key contains a space, and none is `ProtoKey`. */
  lemma CollectHasNoSpacedKey(lines: seq<string>)
    ensures forall k :: k in Collect(lines) ==> ' ' !in k
    ensures ProtoKey !in Collect(lines)
  {
    CollectKeys(lines);
  }

  /** `processText`: split the text into lines, then write each line's entry into the
      object, a later line overwriting an earlier one with the same key. The lines
      themselves are returned as split. */
  method ProcessText(text: string) returns (obj: map<string, Option<string>>, arr: seq<string>)
    ensures arr == SplitLines(text)
    ensures obj == Collect(arr)
    ensures |arr| == CountChar(text, '\n') + 1
    ensures forall k :: k in obj ==> ' ' !in k
    ensures ProtoKey !in obj
  {
    arr := SplitLines(text);
    obj := map[];
    var i := 0;
    while i < |arr|
      invariant 0 <= i <= |arr|
      invariant obj == Collect(arr[..i])
    {
      var field := arr[i];
      var (key, value) := SplitKeyValue(field);
      var name := NormaliseKey(key);
      if name != ProtoKey {
        obj := obj[name := value];
      }
      CollectSnoc(arr, i);
      i := i + 1;
    }
    assert arr[..|arr|] == arr;
    CollectHasNoSpacedKey(arr);
  }
}
