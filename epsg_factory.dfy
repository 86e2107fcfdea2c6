/**
 * The EPSG factory for ANSI SQL databases: an ordered table from MS-Access identifiers to ANSI
 * names (a LinkedHashMap filled from the ANSI array), the schema prefixing of its values, and
 * the rewriting of MS-Access statements through the table.
 */
module EpsgFactory {
  import opened Wrappers
  import opened JavaText
  import opened EpsgRewrite
  import opened EpsgTable

  /** No two entries share a key, as in any java.util.Map. */
  ghost predicate DistinctKeys(es: seq<Entry>) {
    forall i, j :: 0 <= i < j < |es| ==> es[i].key != es[j].key
  }

  /** Some entry has key `k`. */
  predicate HasKey(es: seq<Entry>, k: string) {
    exists i :: 0 <= i < |es| && es[i].key == k
  }

  /**
   * LinkedHashMap.put: a key already present keeps its place and takes the new value; a new key
   * goes to the end of the iteration order.
   */
  function Put(es: seq<Entry>, k: string, v: string): (r: seq<Entry>)
    ensures |r| == if HasKey(es, k) then |es| else |es| + 1
    ensures forall i :: 0 <= i < |es| ==> r[i].key == es[i].key
    ensures forall i :: 0 <= i < |es| && es[i].key != k ==> r[i] == es[i]
    ensures forall i :: 0 <= i < |r| && r[i].key == k ==> r[i].value == v
    ensures !HasKey(es, k) ==> r[|es|] == Entry(k, v)
    ensures DistinctKeys(es) ==> DistinctKeys(r)
  {
    if HasKey(es, k) then
      seq(|es|, i requires 0 <= i < |es| => if es[i].key == k then Entry(k, v) else es[i])
    else
      es + [Entry(k, v)]
  }

  /** The pairs of a flat key/value array, in array order: the reference for the filled map. */
  function Pairs(a: seq<string>): seq<Entry>
    requires |a| % 2 == 0
  {
    seq(|a| / 2, i requires 0 <= i < |a| / 2 => Entry(a[2 * i], a[2 * i + 1]))
  }

  /** The map after putting every pair of the flat array `a`, from first to last. */
  function Load(a: seq<string>): seq<Entry>
    requires |a| % 2 == 0
    decreases |a|
  {
    if a == [] then [] else Put(Load(a[..|a| - 2]), a[|a| - 2], a[|a| - 1])
  }

  /** One more pair of the array is one more put. */
  lemma LoadStep(a: seq<string>, i: nat)
    requires i % 2 == 0 && i + 2 <= |a|
    ensures Load(a[..i + 2]) == Put(Load(a[..i]), a[i], a[i + 1])
  {
    assert a[..i + 2][..i] == a[..i];
  }

  /** When the keys of the array are distinct, putting its pairs in order gives exactly its pairs. */
  lemma {:induction false} LoadIsPairs(a: seq<string>)
    requires |a| % 2 == 0
    requires forall i, j :: 0 <= j < i < |a| / 2 ==> a[2 * j] != a[2 * i]
    ensures Load(a) == Pairs(a)
    decreases |a|
  {
    if a != [] {
      var b := a[..|a| - 2];
      assert forall i :: 0 <= i < |b| ==> b[i] == a[i];
      LoadIsPairs(b);
      var m := |a| / 2 - 1;
      var k := a[2 * m];
      assert !HasKey(Pairs(b), k) by {
        forall i | 0 <= i < |b| / 2 ensures Pairs(b)[i].key != k {
          assert Pairs(b)[i].key == a[2 * i];
        }
      }
      assert Pairs(a) == Pairs(b) + [Entry(k, a[|a| - 1])];
    }
  }

  /**
   * A table whose names cannot survive rewriting: bracketed keys, bracket-free values, and no
   * value inside any key.
   */
  ghost predicate NamesSafe(es: seq<Entry>) {
    (forall i :: 0 <= i < |es| ==> Bracketed(es[i].key) && BracketFree(es[i].value))
    && forall i, j :: 0 <= i < |es| && 0 <= j < |es| ==> Absent(es[i].key, es[j].value)
  }

  /** The keys of a safe table are non-empty. */
  lemma SafeKeysNonEmpty(es: seq<Entry>)
    requires NamesSafe(es)
    ensures NonEmptyKeys(es)
  {
  }

  /**
   * The map the constructors fill: exactly the 20 pairs of the ANSI array in array order, with
   * a table that is safe for rewriting.
   */
  lemma DefaultMap()
    ensures Load(Ansi) == Pairs(Ansi)
    ensures |Pairs(Ansi)| == 20
    ensures NamesSafe(Pairs(Ansi))
  {
    AnsiRows();
    RowsGiveDistinctKeys(Ansi);
    LoadIsPairs(Ansi);
    RowsGiveSafeNames(Ansi);
  }

  /** The freshness half of RowOk makes the keys of the array pairwise distinct. */
  lemma RowsGiveDistinctKeys(a: seq<string>)
    requires |a| % 2 == 0 && forall m :: 0 <= m < |a| / 2 ==> RowOk(a, m)
    ensures forall i, j :: 0 <= j < i < |a| / 2 ==> a[2 * j] != a[2 * i]
  {
    forall i, j | 0 <= j < i < |a| / 2 ensures a[2 * j] != a[2 * i] {
      assert RowOk(a, i);
    }
  }

  /** The key and value facts of every row make the pairs of the array a safe table. */
  lemma RowsGiveSafeNames(a: seq<string>)
    requires |a| % 2 == 0 && forall m :: 0 <= m < |a| / 2 ==> RowOk(a, m)
    ensures NamesSafe(Pairs(a))
  {
    var es := Pairs(a);
    forall i | 0 <= i < |es| ensures Bracketed(es[i].key) && BracketFree(es[i].value) {
      assert RowOk(a, i);
    }
    forall i, j | 0 <= i < |es| && 0 <= j < |es| ensures Absent(es[i].key, es[j].value) {
      assert RowOk(a, i) && RowOk(a, j);
      ValueNotInKey(a[2 * i], a[2 * j + 1]);
    }
  }

  /** With the default map, adaptSQL leaves no MS-Access name of the ANSI array in any statement. */
  lemma DefaultMapRemovesNames(statement: string)
    ensures NonEmptyKeys(Load(Ansi))
    ensures forall i :: 0 <= i < 20 ==> Absent(AdaptAll(Load(Ansi), statement), Ansi[2 * i])
  {
    DefaultMap();
    var es := Pairs(Ansi);
    AdaptRemovesAllKeys(es, statement);
    forall i | 0 <= i < 20 ensures Absent(AdaptAll(es, statement), Ansi[2 * i]) {
      assert es[i].key == Ansi[2 * i];
    }
  }

  /** The schema separators that setSchema accepts at the end of a schema. */
  predicate IsSeparator(c: char) {
    c == '.' || c == '_'
  }

  /**
   * setSchema's validation and normalisation: the trimmed schema, with a '.' appended unless it
   * already ends with '.' or '_'; empty or a lone separator is an IllegalArgumentException
   * carrying the trimmed schema.
   */
  function NormalizeSchema(schema: string): (r: Result<string>)
    ensures r.Err? <==> Trim(schema) == [] || (|Trim(schema)| == 1 && IsSeparator(Trim(schema)[0]))
    ensures r.Err? ==> r.message == Trim(schema)
    ensures r.Ok? ==> |r.value| >= 2 && IsSeparator(r.value[|r.value| - 1])
    ensures r.Ok? ==> Trim(schema) <= r.value && |r.value| <= |Trim(schema)| + 1
    ensures r.Ok? ==> (r.value == Trim(schema) <==> IsSeparator(Trim(schema)[|Trim(schema)| - 1]))
    ensures r.Ok? && r.value != Trim(schema) ==> r.value[|r.value| - 1] == '.'
  {
    var s := Trim(schema);
    if |s| == 0 then Err(s)
    else if !IsSeparator(s[|s| - 1]) then Ok(s + ".")
    else if |s| == 1 then Err(s)
    else Ok(s)
  }

  /** A normalised schema is accepted again unchanged: normalisation is idempotent. */
  lemma NormalizeIdempotent(schema: string)
    requires NormalizeSchema(schema).Ok?
    ensures NormalizeSchema(NormalizeSchema(schema).value) == NormalizeSchema(schema)
  {
    var t := Trim(schema);
    var n := NormalizeSchema(schema).value;
    assert !IsTrimmed(n[0]) by {
      assert n[0] == t[0];
    }
    assert !IsTrimmed(n[|n| - 1]);
    TrimKeepsUntrimmed(n);
  }

  /** One table entry after setSchema: the ORDER column is kept, any other value is prefixed. */
  function SchemaEntry(e: Entry, schema: string): Entry {
    if EqualsIgnoreCase(e.value, AxisOrderColumn) then e else Entry(e.key, schema + e.value)
  }

  /** The table after setSchema with the normalised schema, entry by entry in order. */
  function WithSchema(es: seq<Entry>, schema: string): seq<Entry>
    decreases |es|
  {
    if es == [] then [] else [SchemaEntry(es[0], schema)] + WithSchema(es[1..], schema)
  }

  /**
   * setSchema changes values only: the count, keys and order of the entries stay, the ORDER
   * column keeps its value, and every other value gets the schema in front.
   */
  lemma {:induction false} WithSchemaEntries(es: seq<Entry>, schema: string)
    ensures |WithSchema(es, schema)| == |es|
    ensures forall i :: 0 <= i < |es| ==> WithSchema(es, schema)[i] == SchemaEntry(es[i], schema)
    decreases |es|
  {
    if es != [] {
      WithSchemaEntries(es[1..], schema);
    }
  }

  /** setSchema keeps a map a map: its keys, distinct and non-empty, are left as they were. */
  lemma SchemaKeepsMap(es: seq<Entry>, schema: string)
    requires DistinctKeys(es) && NonEmptyKeys(es)
    ensures |WithSchema(es, schema)| == |es|
    ensures forall i :: 0 <= i < |es| ==> WithSchema(es, schema)[i] == SchemaEntry(es[i], schema)
    ensures DistinctKeys(WithSchema(es, schema)) && NonEmptyKeys(WithSchema(es, schema))
  {
    WithSchemaEntries(es, schema);
  }

  /**
   * Calling setSchema twice stacks the prefixes: a value that is not the ORDER column before or
   * after the first call ends up with both schemas in front, the second one first.
   */
  lemma SchemaStacks(es: seq<Entry>, s1: string, s2: string, i: nat)
    requires i < |es|
    requires !EqualsIgnoreCase(es[i].value, AxisOrderColumn)
    requires !EqualsIgnoreCase(s1 + es[i].value, AxisOrderColumn)
    ensures |WithSchema(WithSchema(es, s1), s2)| == |es|
    ensures WithSchema(WithSchema(es, s1), s2)[i] == Entry(es[i].key, s2 + s1 + es[i].value)
  {
    WithSchemaEntries(es, s1);
    WithSchemaEntries(WithSchema(es, s1), s2);
  }

  /** A value inside a key would put every suffix of it inside the key too. */
  lemma PrefixedAbsent(k: string, schema: string, v: string)
    requires Absent(k, v)
    ensures Absent(k, schema + v)
  {
    var w := schema + v;
    assert w[|schema|..] == v;
    forall p ensures !Occurs(k, w, p) {
      if 0 <= p && p + |w| <= |k| {
        assert k[p..p + |w|][|schema|..] == k[p + |schema|..p + |w|];
        assert !Occurs(k, v, p + |schema|);
      }
    }
  }

  /** A bracket-free schema keeps a safe table safe. */
  lemma SchemaKeepsNamesSafe(es: seq<Entry>, schema: string)
    requires NamesSafe(es) && BracketFree(schema)
    ensures NamesSafe(WithSchema(es, schema))
  {
    WithSchemaEntries(es, schema);
    var ws := WithSchema(es, schema);
    forall i | 0 <= i < |ws| ensures BracketFree(ws[i].value) {
      var v := es[i].value;
      if !EqualsIgnoreCase(v, AxisOrderColumn) {
        assert forall c :: 0 <= c < |schema + v| ==> (schema + v)[c] == if c < |schema| then schema[c] else v[c - |schema|];
      }
    }
    forall i, j | 0 <= i < |ws| && 0 <= j < |ws| ensures Absent(ws[i].key, ws[j].value) {
      if !EqualsIgnoreCase(es[j].value, AxisOrderColumn) {
        PrefixedAbsent(es[i].key, schema, es[j].value);
      }
    }
  }

  /** The factory: the `map` field as an ordered entry list, and the table-name prefix. */
  class AnsiDialectFactory {
    var entries: seq<Entry>
    var prefix: string

    /**
     * The entries form a map (no key twice), and every key is non-empty, so the replace loop of
     * adaptSQL terminates.
     */
    ghost predicate Valid()
      reads this
    {
      DistinctKeys(entries) && NonEmptyKeys(entries)
    }

    /** Fills the map from the ANSI array, one put per pair, in array order. */
    constructor ()
      ensures Valid()
      ensures entries == Pairs(Ansi) && |entries| == 20
      ensures NamesSafe(entries)
      ensures prefix == "epsg_"
    {
      entries := [];
      prefix := "epsg_";
      new;
      var i := 0;
      while i < |Ansi|
        invariant 0 <= i <= |Ansi| && i % 2 == 0
        invariant entries == Load(Ansi[..i]) && prefix == "epsg_"
        invariant DistinctKeys(entries)
      {
        LoadStep(Ansi, i);
        var key := Ansi[i];
        i := i + 1;
        entries := Put(entries, key, Ansi[i]);
        i := i + 1;
      }
      assert Ansi[..i] == Ansi;
      DefaultMap();
      SafeKeysNonEmpty(entries);
    }

    /**
     * setSchema: rejects an empty or lone-separator schema and changes nothing; otherwise every
     * value but the ORDER column gets the normalised schema in front, and it becomes the prefix.
     */
    method SetSchema(schema: string) returns (r: Result<()>)
      requires Valid()
      modifies this
      ensures Valid()
      ensures NormalizeSchema(schema).Err? ==>
        r == Err(NormalizeSchema(schema).message) && entries == old(entries) && prefix == old(prefix)
      ensures NormalizeSchema(schema).Ok? ==>
        r.Ok? && entries == WithSchema(old(entries), NormalizeSchema(schema).value)
        && prefix == NormalizeSchema(schema).value
    {
      var s := Trim(schema);
      var length := |s|;
      if length == 0 {
        return Err(s);
      }
      var separator := s[length - 1];
      if separator != '.' && separator != '_' {
        s := s + ".";
      } else if length == 1 {
        return Err(s);
      }
      assert NormalizeSchema(schema) == Ok(s);
      PrefixTables(s);
      SchemaKeepsMap(old(entries), s);
      prefix := s;
      r := Ok(());
    }

    /**
     * The loop of setSchema over the map's entries: every value but the ORDER column gets the
     * schema in front, in place; keys and order stay.
     */
    method PrefixTables(s: string)
      modifies this`entries
      ensures entries == WithSchema(old(entries), s)
    {
      var i := 0;
      while i < |entries|
        invariant i <= |entries| == |old(entries)|
        invariant forall j :: 0 <= j < i ==> entries[j] == SchemaEntry(old(entries)[j], s)
        invariant forall j :: i <= j < |entries| ==> entries[j] == old(entries)[j]
      {
        var tableName := entries[i].value;
        if !EqualsIgnoreCase(tableName, AxisOrderColumn) {
          entries := entries[i := Entry(entries[i].key, s + tableName)];
        }
        i := i + 1;
      }
      WithSchemaEntries(old(entries), s);
    }

    /**
     * adaptSQL: every entry in iteration order replaces all occurrences of its key in the text
     * left by the previous entries. A statement holding no key comes back unchanged, and with a
     * safe table no key is left in the result.
     */
    method AdaptSql(statement: string) returns (r: string)
      requires Valid()
      ensures r == AdaptAll(entries, statement)
      ensures (forall i :: 0 <= i < |entries| ==> Absent(statement, entries[i].key)) ==> r == statement
      ensures NamesSafe(entries) ==> forall i :: 0 <= i < |entries| ==> Absent(r, entries[i].key)
    {
      r := statement;
      var n := 0;
      while n < |entries|
        invariant n <= |entries|
        invariant NonEmptyKeys(entries[n..])
        invariant AdaptAll(entries[n..], r) == AdaptAll(entries, statement)
      {
        var rest := entries[n..];
        assert rest[0] == entries[n] && rest[1..] == entries[n + 1..];
        r := ReplaceEvery(r, entries[n].key, entries[n].value);
        n := n + 1;
      }
      if forall i :: 0 <= i < |entries| ==> Absent(statement, entries[i].key) {
        AdaptAllUnchanged(entries, statement);
      }
      if NamesSafe(entries) {
        AdaptRemovesAllKeys(entries, statement);
      }
    }
  }
}
