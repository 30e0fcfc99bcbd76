/**
 * Parsed YAML documents as PyYAML's `safe_load_all` returns them, and the Python
 * operations the versioner applies to them: `in`, subscripting, `len` and in-place
 * assignment along a path of keys and indices.
 */
module Yaml {
  import opened Wrappers
  import opened PyErrors
  import opened Strings

  /** A YAML node: `None`, a non-string scalar (number, boolean), a string, a list or a dict. */
  datatype Value =
    | Null
    | Scalar(literal: string)
    | Str(text: string)
    | Sequence(items: seq<Value>)
    | Mapping(entries: seq<Entry>)

  /** One key of a dict, in insertion order. */
  datatype Entry = Entry(key: string, value: Value)

  /** One subscript: `v["name"]` or `v[position]`. */
  datatype Step = Key(name: string) | Index(position: nat)

  type Path = seq<Step>

  /** Position of the first entry with key `key`, if any. */
  function KeyIndex(entries: seq<Entry>, key: string): (r: Option<nat>)
    ensures r.Some? ==> r.value < |entries| && entries[r.value].key == key
    ensures r.Some? ==> forall j :: 0 <= j < r.value ==> entries[j].key != key
    ensures r.None? <==> forall j :: 0 <= j < |entries| ==> entries[j].key != key
  {
    if entries == [] then None
    else if entries[0].key == key then Some(0)
    else
      match KeyIndex(entries[1..], key)
      case None => None
      case Some(j) => Some(j + 1)
  }

  /** Python's `needle in v` for a string `needle`: key test, element test or substring test. */
  function Contains(v: Value, needle: string): (r: Result<bool, Exception>)
    ensures v.Mapping? ==> r == Ok(exists j :: 0 <= j < |v.entries| && v.entries[j].key == needle)
    ensures v.Str? ==> r == Ok(exists i :: OccursAt(needle, v.text, i))
    ensures v.Sequence? ==> r == Ok(exists j :: 0 <= j < |v.items| && v.items[j] == Str(needle))
    ensures r.Err? <==> v.Null? || v.Scalar?
    ensures r.Err? ==> r.error == TypeError
  {
    match v
    case Mapping(entries) => Ok(KeyIndex(entries, needle).Some?)
    case Sequence(items) => Ok(Str(needle) in items)
    case Str(text) => SubstringIffOccurs(needle, text); Ok(IsSubstring(needle, text))
    case _ => Err(TypeError)
  }

  /**
   * Python's `v[step]`: a dict looks the key up (KeyError when absent, also for an
   * integer index since keys are strings), a list or string is indexed (IndexError past
   * the end, TypeError for a string key), and `None` or a scalar is not subscriptable.
   */
  function Subscript(v: Value, step: Step): Result<Value, Exception>
  {
    match step
    case Key(k) =>
      if v.Mapping? then
        match KeyIndex(v.entries, k)
        case Some(j) => Ok(v.entries[j].value)
        case None => Err(KeyError)
      else Err(TypeError)
    case Index(n) =>
      match v
      case Sequence(items) => if n < |items| then Ok(items[n]) else Err(IndexError)
      case Str(text) => if n < |text| then Ok(Str([text[n]])) else Err(IndexError)
      case Mapping(_) => Err(KeyError)
      case _ => Err(TypeError)
  }

  /** Python's `len(v)`. */
  function Len(v: Value): Result<nat, Exception>
  {
    match v
    case Sequence(items) => Ok(|items|)
    case Mapping(entries) => Ok(|entries|)
    case Str(text) => Ok(|text|)
    case _ => Err(TypeError)
  }

  /** `v[path[0]][path[1]]...`, stopping at the first exception. */
  function Get(v: Value, path: Path): Result<Value, Exception>
    decreases |path|
  {
    if path == [] then Ok(v)
    else
      match Subscript(v, path[0])
      case Err(e) => Err(e)
      case Ok(child) => Get(child, path[1..])
  }

  /** Every step of `path` goes into a dict with that key or a list with that index. */
  ghost predicate Addressable(v: Value, path: Path)
    decreases |path|
  {
    if path == [] then true
    else
      match path[0]
      case Key(k) =>
        v.Mapping? && KeyIndex(v.entries, k).Some?
        && Addressable(v.entries[KeyIndex(v.entries, k).value].value, path[1..])
      case Index(n) =>
        v.Sequence? && n < |v.items| && Addressable(v.items[n], path[1..])
  }

  /** `v[path[0]]...[path[k]] = x` done in place: the dicts and lists along the path keep their order. */
  function Put(v: Value, path: Path, x: Value): Value
    decreases |path|
  {
    if path == [] then x
    else
      match path[0]
      case Key(k) =>
        if v.Mapping? && KeyIndex(v.entries, k).Some? then
          var j := KeyIndex(v.entries, k).value;
          Mapping(v.entries[j := Entry(k, Put(v.entries[j].value, path[1..], x))])
        else v
      case Index(n) =>
        if v.Sequence? && n < |v.items| then Sequence(v.items[n := Put(v.items[n], path[1..], x)])
        else v
  }

  /**
   * `b` differs from `a` at most in the value reached by `path`: every dict and list on the
   * way has the same keys in the same order and the same entries off the path.
   */
  ghost predicate OnlyChangedAlong(a: Value, b: Value, path: Path)
    decreases |path|
  {
    if path == [] then true
    else
      match path[0]
      case Key(k) =>
        && a.Mapping? && b.Mapping? && |a.entries| == |b.entries|
        && KeyIndex(a.entries, k).Some?
        && (var j := KeyIndex(a.entries, k).value;
            && (forall i :: 0 <= i < |a.entries| && i != j ==> a.entries[i] == b.entries[i])
            && b.entries[j].key == k
            && OnlyChangedAlong(a.entries[j].value, b.entries[j].value, path[1..]))
      case Index(n) =>
        && a.Sequence? && b.Sequence? && |a.items| == |b.items| && n < |a.items|
        && (forall i :: 0 <= i < |a.items| && i != n ==> a.items[i] == b.items[i])
        && OnlyChangedAlong(a.items[n], b.items[n], path[1..])
  }

  /** Reading an addressable path never raises. */
  lemma {:induction false} GetAddressable(v: Value, path: Path)
    requires Addressable(v, path)
    ensures Get(v, path).Ok?
    decreases |path|
  {
    if path != [] {
      match path[0]
      case Key(k) => GetAddressable(v.entries[KeyIndex(v.entries, k).value].value, path[1..]);
      case Index(n) => GetAddressable(v.items[n], path[1..]);
    }
  }

  /** After assigning `x` along an addressable path, reading that path gives `x`. */
  lemma {:induction false} GetAfterPut(v: Value, path: Path, x: Value)
    requires Addressable(v, path)
    ensures Addressable(Put(v, path, x), path)
    ensures Get(Put(v, path, x), path) == Ok(x)
    decreases |path|
  {
    if path != [] {
      match path[0]
      case Key(k) =>
        var j := KeyIndex(v.entries, k).value;
        var es := v.entries[j := Entry(k, Put(v.entries[j].value, path[1..], x))];
        KeyIndexSameKeys(v.entries, es, k);
        GetAfterPut(v.entries[j].value, path[1..], x);
      case Index(n) =>
        GetAfterPut(v.items[n], path[1..], x);
    }
  }

  /** Assigning the value already stored along an addressable path changes nothing. */
  lemma {:induction false} PutCurrentValue(v: Value, path: Path, x: Value)
    requires Addressable(v, path)
    requires Get(v, path) == Ok(x)
    ensures Put(v, path, x) == v
    decreases |path|
  {
    if path != [] {
      match path[0]
      case Key(k) =>
        var j := KeyIndex(v.entries, k).value;
        PutCurrentValue(v.entries[j].value, path[1..], x);
        assert v.entries[j := Entry(k, v.entries[j].value)] == v.entries;
      case Index(n) =>
        PutCurrentValue(v.items[n], path[1..], x);
        assert v.items[n := v.items[n]] == v.items;
    }
  }

  /** Assigning along an addressable path touches nothing off that path. */
  lemma {:induction false} PutOnlyChangesPath(v: Value, path: Path, x: Value)
    requires Addressable(v, path)
    ensures OnlyChangedAlong(v, Put(v, path, x), path)
    decreases |path|
  {
    if path != [] {
      match path[0]
      case Key(k) =>
        var j := KeyIndex(v.entries, k).value;
        PutOnlyChangesPath(v.entries[j].value, path[1..], x);
      case Index(n) =>
        PutOnlyChangesPath(v.items[n], path[1..], x);
    }
  }

  /** Reading a prefix `p` of the assigned path `p + q` gives the old value there with the assignment along `q` applied. */
  lemma {:induction false} GetPrefixAfterPut(v: Value, p: Path, q: Path, x: Value)
    requires Addressable(v, p + q)
    ensures Addressable(v, p) && Get(v, p).Ok?
    ensures Get(Put(v, p + q, x), p) == Ok(Put(Get(v, p).value, q, x))
    decreases |p|
  {
    if p == [] {
      assert p + q == q;
    } else {
      assert (p + q)[0] == p[0];
      assert (p + q)[1..] == p[1..] + q;
      match p[0]
      case Key(k) =>
        var j := KeyIndex(v.entries, k).value;
        var es := v.entries[j := Entry(k, Put(v.entries[j].value, p[1..] + q, x))];
        KeyIndexSameKeys(v.entries, es, k);
        GetPrefixAfterPut(v.entries[j].value, p[1..], q, x);
      case Index(n) =>
        GetPrefixAfterPut(v.items[n], p[1..], q, x);
    }
  }

  /** Two entry lists with the same keys in the same order find every key at the same position. */
  lemma {:induction false} KeyIndexSameKeys(a: seq<Entry>, b: seq<Entry>, key: string)
    requires |a| == |b|
    requires forall i :: 0 <= i < |a| ==> a[i].key == b[i].key
    ensures KeyIndex(a, key) == KeyIndex(b, key)
  {
    if a != [] {
      KeyIndexSameKeys(a[1..], b[1..], key);
    }
  }

  /**
   * Assigning under key `k` of a dict leaves every other key readable as before, and
   * `in` answers as before for every key.
   */
  lemma SiblingKeysUnchanged(v: Value, path: Path, x: Value, other: string)
    requires Addressable(v, path) && path != [] && path[0].Key? && path[0].name != other
    ensures Subscript(Put(v, path, x), Key(other)) == Subscript(v, Key(other))
    ensures Contains(Put(v, path, x), other) == Contains(v, other)
  {
    var k := path[0].name;
    var j := KeyIndex(v.entries, k).value;
    var es := v.entries[j := Entry(k, Put(v.entries[j].value, path[1..], x))];
    KeyIndexSameKeys(v.entries, es, other);
  }

  /** Reading `p + q` is reading `p` and then reading `q` from there. */
  lemma {:induction false} GetConcat(v: Value, p: Path, q: Path)
    ensures Get(v, p + q) == match Get(v, p) case Err(e) => Err(e) case Ok(w) => Get(w, q)
    decreases |p|
  {
    if p == [] {
      assert p + q == q;
    } else {
      assert (p + q)[0] == p[0];
      assert (p + q)[1..] == p[1..] + q;
      match Subscript(v, p[0])
      case Err(_) =>
      case Ok(child) => GetConcat(child, p[1..], q);
    }
  }

  /** An addressable path followed by a path addressable from where it ends is addressable. */
  lemma {:induction false} AddressableConcat(v: Value, p: Path, q: Path)
    requires Addressable(v, p)
    requires Get(v, p).Ok? && Addressable(Get(v, p).value, q)
    ensures Addressable(v, p + q)
    decreases |p|
  {
    if p == [] {
      assert p + q == q;
    } else {
      assert (p + q)[0] == p[0];
      assert (p + q)[1..] == p[1..] + q;
      match p[0]
      case Key(k) => AddressableConcat(v.entries[KeyIndex(v.entries, k).value].value, p[1..], q);
      case Index(n) => AddressableConcat(v.items[n], p[1..], q);
    }
  }

  /** A path of dict keys that reads without an exception is addressable. */
  lemma {:induction false} KeyPathAddressable(v: Value, path: Path)
    requires forall i :: 0 <= i < |path| ==> path[i].Key?
    requires Get(v, path).Ok?
    ensures Addressable(v, path)
    decreases |path|
  {
    if path != [] {
      var k := path[0].name;
      var child := v.entries[KeyIndex(v.entries, k).value].value;
      assert forall i :: 0 <= i < |path[1..]| ==> path[1..][i] == path[i + 1];
      KeyPathAddressable(child, path[1..]);
    }
  }
}
