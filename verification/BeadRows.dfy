/** The rows of a bead ledger (.beads/issues.jsonl) and the field readers that
    the merge driver applies to them. */
module BeadRows {
  import opened Order
  import opened Results

  /** A decoded JSON value; Other stands for numbers and booleans. */
  datatype Json =
    | Null
    | Text(text: string)
    | Array(items: seq<Json>)
    | Object(fields: map<string, Json>)
    | Other(raw: string)

  type Raw = map<string, Json>

  /** One ledger line. `at` is updated_at on the time line; the zero time that an
      absent or unreadable timestamp gets is one of its values. */
  datatype Row = Row(id: string, at: int, raw: Raw)

  const LABELS := "labels"
  const DEPENDENCIES := "dependencies"

  function StringField(m: Raw, key: string): string {
    if key in m && m[key].Text? then m[key].text else ""
  }

  /** A string slice as Go decodes it: None is the nil slice, which an absent
      key, a null and a value of another shape all give. A null element decodes
      to the empty string. */
  function StringArray(m: Raw, key: string): Option<seq<string>> {
    if key in m && m[key].Array? && AllStrings(m[key].items)
    then Some(Strings(m[key].items))
    else None
  }

  predicate AllStrings(items: seq<Json>) {
    forall i :: 0 <= i < |items| ==> items[i].Text? || items[i].Null?
  }

  function Strings(items: seq<Json>): (r: seq<string>)
    ensures |r| == |items|
  {
    seq(|items|, i requires 0 <= i < |items| => if items[i].Text? then items[i].text else "")
  }

  function RawArray(m: Raw, key: string): Option<seq<Json>> {
    if key in m && m[key].Array? then Some(m[key].items) else None
  }

  function Elements<T>(o: Option<seq<T>>): seq<T> {
    if o.Some? then o.value else []
  }

  /** The key under which a dependency entry is de-duplicated; None for an entry
      that is not an object or names nothing. */
  function DependencyKey(entry: Json): Option<string> {
    if !entry.Object? then None
    else
      var on := StringField(entry.fields, "depends_on_id");
      var key := if on == "" then StringField(entry.fields, "issue_id") + ":" + on else on;
      if key == "" || key == ":" then None else Some(key)
  }

  // ---- What a row says, whatever the order and repetitions of its lists ----

  function SetOf(xs: seq<string>): set<string> {
    set x | x in xs
  }

  function LabelSet(m: Raw): set<string> {
    SetOf(Elements(StringArray(m, LABELS)))
  }

  /** The first entry that a list holds under each dependency key. */
  function FirstByKey(entries: seq<Json>): map<string, Json> {
    if entries == [] then map[]
    else AddFirst(FirstByKey(entries[..|entries| - 1]), entries[|entries| - 1])
  }

  function AddFirst(seen: map<string, Json>, entry: Json): map<string, Json> {
    var key := DependencyKey(entry);
    if key.None? || key.value in seen then seen else seen[key.value := entry]
  }

  function DependencyMap(m: Raw): map<string, Json> {
    FirstByKey(Elements(RawArray(m, DEPENDENCIES)))
  }

  function Scalars(m: Raw): Raw {
    m - {LABELS, DEPENDENCIES}
  }

  // ---- Facts about the readers ----

  lemma {:induction false} FirstByKeyConcat(a: seq<Json>, b: seq<Json>)
    ensures FirstByKey(a + b) == FirstByKey(b) + FirstByKey(a)
  {
    if b == [] {
      assert a + b == a;
    } else {
      var n := |b| - 1;
      assert (a + b)[..|a + b| - 1] == a + b[..n];
      FirstByKeyConcat(a, b[..n]);
    }
  }

  lemma {:induction false} FirstByKeyKeys(entries: seq<Json>)
    ensures forall k :: k in FirstByKey(entries) ==>
      DependencyKey(FirstByKey(entries)[k]) == Some(k) && FirstByKey(entries)[k] in entries
  {
    if entries != [] {
      FirstByKeyKeys(entries[..|entries| - 1]);
    }
  }

  /** The list of a map's entries in ascending key order. */
  function Listed(keys: seq<string>, m: map<string, Json>): (r: seq<Json>)
    requires forall k :: k in keys ==> k in m
    ensures |r| == |keys|
  {
    seq(|keys|, i requires 0 <= i < |keys| => m[keys[i]])
  }

  lemma {:induction false} FirstByKeyListed(keys: seq<string>, m: map<string, Json>)
    requires forall k :: k in keys ==> k in m && DependencyKey(m[k]) == Some(k)
    ensures FirstByKey(Listed(keys, m)) == map k | k in SetOf(keys) :: m[k]
  {
    if keys != [] {
      var n := |keys| - 1;
      FirstByKeyListed(keys[..n], m);
      ListedSnoc(keys, m);
      AddListed(keys[..n], keys[n], m);
      assert keys == keys[..n] + [keys[n]];
    }
  }

  lemma ListedSnoc(keys: seq<string>, m: map<string, Json>)
    requires keys != [] && forall k :: k in keys ==> k in m
    ensures FirstByKey(Listed(keys, m)) == AddFirst(FirstByKey(Listed(keys[..|keys| - 1], m)), m[keys[|keys| - 1]])
  {
    assert Listed(keys, m)[..|keys| - 1] == Listed(keys[..|keys| - 1], m);
  }

  lemma AddListed(keys: seq<string>, last: string, m: map<string, Json>)
    requires (forall k :: k in keys ==> k in m) && last in m && DependencyKey(m[last]) == Some(last)
    ensures AddFirst(map k | k in SetOf(keys) :: m[k], m[last]) == map k | k in SetOf(keys + [last]) :: m[k]
  {
    assert SetOf(keys + [last]) == SetOf(keys) + {last};
  }

  lemma SortedSet(s: set<string>)
    ensures SetOf(Sorted(s)) == s
  {
  }

  /** Writing a map of first entries in key order and reading it back. */
  lemma FirstByKeyCanonical(entries: seq<Json>)
    ensures FirstByKey(Listed(Sorted(FirstByKey(entries).Keys), FirstByKey(entries))) == FirstByKey(entries)
  {
    FirstByKeyKeys(entries);
    ListedCanonical(FirstByKey(entries));
  }

  lemma ListedCanonical(m: map<string, Json>)
    requires forall k :: k in m ==> DependencyKey(m[k]) == Some(k)
    ensures FirstByKey(Listed(Sorted(m.Keys), m)) == m
  {
    FirstByKeyListed(Sorted(m.Keys), m);
    SortedSet(m.Keys);
  }
}
