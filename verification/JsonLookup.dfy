// Looking up the members of an object by their keys.

module JsonLookup {
  import opened Json
  import opened Text

  /** The value of the first member with this key. */
  function InFields(fs: seq<Field>, key: string): Option<Value> {
    if fs == [] then None else if fs[0].key == key then Some(fs[0].value) else InFields(fs[1..], key)
  }

  /** The value of a key; None also for a value that is no object. */
  function Lookup(v: Value, key: string): Option<Value> { if v.Obj? then InFields(v.fields, key) else None }

  /** One object and nothing but blanks behind it. */
  function ReadObject(text: string): Option<Value> {
    match ReadValue(text)
    case None => None
    case Some((v, rest)) => if v.Obj? && SkipBlanks(rest) == "" then Some(v) else None
  }

  /** a comes before b, as their characters say. */
  predicate Less(a: string, b: string) {
    exists k :: 0 <= k < |b| && k <= |a| && a[..k] == b[..k] && (k == |a| || a[k] < b[k])
  }

  /** The keys of an object are strictly sorted. */
  predicate KeysSorted(v: Value) {
    v.Obj? && forall i | 0 <= i < |v.fields| - 1 :: Less(v.fields[i].key, v.fields[i + 1].key)
  }

  lemma LessAt(a: string, b: string, k: nat)
    requires k < |b| && k <= |a| && a[..k] == b[..k] && (k == |a| || a[k] < b[k])
    ensures Less(a, b)
  {
  }

  /** Two texts that differ at some position. */
  predicate DifferAt(a: string, b: string, k: nat) { |a| != |b| || (k < |a| && a[k] != b[k]) }

  lemma LessIsTransitive(a: string, b: string, c: string)
    requires Less(a, b) && Less(b, c)
    ensures Less(a, c)
  {
    var j :| 0 <= j < |b| && j <= |a| && a[..j] == b[..j] && (j == |a| || a[j] < b[j]);
    var k :| 0 <= k < |c| && k <= |b| && b[..k] == c[..k] && (k == |b| || b[k] < c[k]);
    var m := if j < k then j else k;
    assert a[..m] == a[..j][..m] == b[..j][..m] == b[..m] == b[..k][..m] == c[..k][..m] == c[..m];
    if j < k {
      assert b[j] == b[..k][j] == c[..k][j] == c[j];
    } else if k < j {
      assert a[k] == a[..j][k] == b[..j][k] == b[k];
    }
    LessAt(a, c, m);
  }

  lemma LessIsStrict(a: string)
    ensures !Less(a, a)
  {
  }

  lemma {:induction false} SortedPairs(v: Value, i: nat, j: nat)
    requires KeysSorted(v) && i < j < |v.fields|
    ensures Less(v.fields[i].key, v.fields[j].key) && v.fields[i].key != v.fields[j].key
    decreases j
  {
    if i < j - 1 {
      SortedPairs(v, i, j - 1);
      LessIsTransitive(v.fields[i].key, v.fields[j - 1].key, v.fields[j].key);
    }
    LessIsStrict(v.fields[i].key);
  }

  lemma {:induction false} FirstWithKey(fs: seq<Field>, k: nat)
    requires k < |fs| && forall i | 0 <= i < k :: fs[i].key != fs[k].key
    ensures InFields(fs, fs[k].key) == Some(fs[k].value)
  {
    if k > 0 {
      assert fs[0].key != fs[k].key;
      forall i | 0 <= i < k - 1 ensures fs[1..][i].key != fs[1..][k - 1].key {
        assert fs[i + 1].key != fs[k].key;
      }
      FirstWithKey(fs[1..], k - 1);
    }
  }

  /** In an object with sorted keys every member is found by its key. */
  lemma FoundAt(v: Value, k: nat)
    requires KeysSorted(v) && k < |v.fields|
    ensures Lookup(v, v.fields[k].key) == Some(v.fields[k].value)
  {
    forall i | 0 <= i < k ensures v.fields[i].key != v.fields[k].key {
      SortedPairs(v, i, k);
    }
    FirstWithKey(v.fields, k);
  }

  lemma {:induction false} NotFound(fs: seq<Field>, key: string)
    requires forall i | 0 <= i < |fs| :: fs[i].key != key
    ensures InFields(fs, key) == None
  {
    if fs != [] {
      NotFound(fs[1..], key);
    }
  }

  /** A printed object is read back whole. */
  lemma ReadsPrinted(v: Value, st: Style)
    requires ValidStyle(st) && v.Obj?
    ensures ReadObject(Encode(v, st)) == Some(v)
  {
    ValueRoundTrip(v, st, "");
    assert Encode(v, st) + "" == Encode(v, st);
  }
}
