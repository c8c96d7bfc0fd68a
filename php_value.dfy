/** The part of PHP's value model that the upload decorator looks at:
    scalars, null, and ordered arrays keyed by integers or strings
    (the `$_FILES` shape is an array of arrays). */
module PhpValue {

  datatype Option<+T> = None | Some(value: T)

  /** An array key. PHP normalises decimal-integer strings to integer
      keys on insertion, so a StrKey here never holds such a string. */
  datatype Key = IntKey(i: int) | StrKey(s: string)

  /** A PHP value. An array keeps its entries in insertion order, which
      is the order `foreach` visits them in. */
  datatype Value =
    | Null
    | Bool(b: bool)
    | Int(i: int)
    | Str(s: string)
    | Arr(entries: seq<(Key, Value)>)

  /** PHP's UPLOAD_ERR_NO_FILE: "no file was uploaded". */
  const UPLOAD_ERR_NO_FILE: int := 4

  const TMP_NAME: Key := StrKey("tmp_name")
  const NAME: Key := StrKey("name")
  const SIZE: Key := StrKey("size")
  const TYPE: Key := StrKey("type")
  const ERROR: Key := StrKey("error")

  /** Position of the first entry with key `k`, or -1 when there is none. */
  function IndexOf(entries: seq<(Key, Value)>, k: Key): (i: int)
    ensures -1 <= i < |entries|
    ensures 0 <= i ==> entries[i].0 == k
    ensures forall j :: 0 <= j < |entries| && (i == -1 || j < i) ==> entries[j].0 != k
  {
    if |entries| == 0 then -1
    else if entries[0].0 == k then 0
    else
      var j := IndexOf(entries[1..], k);
      if j == -1 then -1 else j + 1
  }

  /** `$v[k]` when `$v` is an array holding key `k`; None otherwise.
      On a non-array the result is None too: the decorator only ever
      indexes a non-array with the string key 'tmp_name', and PHP's
      `isset` is false for a non-numeric offset into a string. */
  function Get(v: Value, k: Key): (r: Option<Value>)
  {
    if !v.Arr? then None
    else
      var i := IndexOf(v.entries, k);
      if i == -1 then None else Some(v.entries[i].1)
  }

  /** Reading the key of entry `j` finds entry `j` when no earlier entry has that key. */
  lemma GetFirstOccurrence(v: Value, j: int)
    requires v.Arr? && 0 <= j < |v.entries|
    requires forall j' :: 0 <= j' < j ==> v.entries[j'].0 != v.entries[j].0
    ensures Get(v, v.entries[j].0) == Some(v.entries[j].1)
  {
    var i := IndexOf(v.entries, v.entries[j].0);
    assert i != -1 && !(i < j) && !(j < i);
  }

  /** A key no entry has is not found. */
  lemma GetAbsent(v: Value, k: Key)
    requires v.Arr? && forall j :: 0 <= j < |v.entries| ==> v.entries[j].0 != k
    ensures Get(v, k) == None
  {
  }

  /** PHP's `isset($v[k])` for an array `$v`, or for a string key on a
      non-array: the key is present and its value is not null. An integer
      offset into a string is not modelled (PHP's `isset("ab"[0])` is true);
      the decorator never asks for one. */
  predicate Isset(v: Value, k: Key) {
    Get(v, k).Some? && Get(v, k).value != Null
  }

  /** On an array, `isset($v[k])` looks at the first entry with key `k`
      and asks whether its value is not null; on a non-array the model's
      lookup finds nothing. */
  lemma IssetIffFirstEntryNotNull(v: Value, k: Key)
    ensures Isset(v, k) <==>
              v.Arr? && exists j :: 0 <= j < |v.entries| && v.entries[j].0 == k && v.entries[j].1 != Null
                                  && forall j' :: 0 <= j' < j ==> v.entries[j'].0 != k
  {
    if Isset(v, k) {
      var i := IndexOf(v.entries, k);
      assert 0 <= i < |v.entries| && v.entries[i].0 == k && v.entries[i].1 != Null;
    }
    if v.Arr? && exists j :: 0 <= j < |v.entries| && v.entries[j].0 == k && v.entries[j].1 != Null
                           && forall j' :: 0 <= j' < j ==> v.entries[j'].0 != k {
      var j :| 0 <= j < |v.entries| && v.entries[j].0 == k && v.entries[j].1 != Null
               && forall j' :: 0 <= j' < j ==> v.entries[j'].0 != k;
      GetFirstOccurrence(v, j);
    }
  }

  /** PHP's `isset($v[k1][k2])`. */
  predicate IssetNested(v: Value, k1: Key, k2: Key) {
    Get(v, k1).Some? && Isset(Get(v, k1).value, k2)
  }

  /** The values of an array's entries, in `foreach` order. */
  function Values(entries: seq<(Key, Value)>): (vs: seq<Value>)
    ensures |vs| == |entries|
    ensures forall j :: 0 <= j < |entries| ==> vs[j] == entries[j].1
  {
    seq(|entries|, j requires 0 <= j < |entries| => entries[j].1)
  }

  /** The list that `$a[] = v_0; ...; $a[] = v_n;` builds from `$a = []`:
      each append takes the next integer key. */
  function Listed(vs: seq<Value>): (entries: seq<(Key, Value)>)
  {
    if |vs| == 0 then []
    else Listed(vs[..|vs| - 1]) + [(IntKey(|vs| - 1), vs[|vs| - 1])]
  }

  /** The appended list is a PHP list: keys 0, 1, ... in order, values unchanged. */
  lemma {:induction false} ListedIsList(vs: seq<Value>)
    ensures |Listed(vs)| == |vs|
    ensures forall j :: 0 <= j < |vs| ==> Listed(vs)[j] == (IntKey(j), vs[j])
  {
    if |vs| > 0 {
      ListedIsList(vs[..|vs| - 1]);
    }
  }
}
