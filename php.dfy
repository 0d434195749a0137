/**
 * The part of PHP's value model that the behaviour's configuration handling
 * relies on: array keys, the values a setting can hold, ordered arrays with
 * PHP's read and assignment semantics, `empty()`, the `(array)` cast,
 * `is_numeric()` on array keys and the plugin split of a dotted name.
 */
module Php {
  import opened Wrappers

  /** An array key; PHP stores canonical integer strings as integer keys. */
  datatype Key = IntKey(n: int) | StrKey(s: string)

  /** A configuration value. Closures and other objects are opaque tokens. */
  datatype Value =
    | Null
    | Bool(b: bool)
    | Int(n: int)
    | Str(s: string)
    | Arr(entries: seq<(Key, Value)>)
    | Object(id: nat)

  // ---------------------------------------------------------------------
  // Ordered arrays: an association list whose order is insertion order.
  // ---------------------------------------------------------------------

  /** `$a[$k]` when the key exists (the first entry with that key). */
  function Lookup<K(==), V>(a: seq<(K, V)>, k: K): Option<V>
  {
    if a == [] then None
    else if a[0].0 == k then Some(a[0].1)
    else Lookup(a[1..], k)
  }

  /** `array_key_exists($k, $a)`. */
  predicate HasKey<K(==), V>(a: seq<(K, V)>, k: K) {
    Lookup(a, k).Some?
  }

  /** `$a[$k] = $v`: overwrites an existing key in place, otherwise appends. */
  function Put<K(==,!new), V>(a: seq<(K, V)>, k: K, v: V): (r: seq<(K, V)>)
    ensures Lookup(r, k) == Some(v)
    ensures forall k' :: k' != k ==> Lookup(r, k') == Lookup(a, k')
    ensures HasKey(a, k) ==> |r| == |a|
    ensures !HasKey(a, k) ==> r == a + [(k, v)]
  {
    if a == [] then [(k, v)]
    else if a[0].0 == k then [(k, v)] + a[1..]
    else
      var rest := Put(a[1..], k, v);
      assert forall k' :: k' != a[0].0 ==> Lookup([a[0]] + rest, k') == Lookup(rest, k');
      [a[0]] + rest
  }

  // ---------------------------------------------------------------------
  // empty(), truthiness and the (array) cast
  // ---------------------------------------------------------------------

  /** PHP's `empty()`: null, false, 0, "", "0" and the empty array. */
  predicate IsEmpty(v: Value) {
    match v
    case Null => true
    case Bool(b) => !b
    case Int(n) => n == 0
    case Str(s) => s == "" || s == "0"
    case Arr(es) => es == []
    case Object(_) => false
  }

  /** A value used as a condition (`if ($v)`). */
  predicate Truthy(v: Value) {
    !IsEmpty(v)
  }

  /**
   * `(array)$v`: null gives the empty array, an array stays itself, a scalar
   * becomes a one-element list; an object gives its public properties, and
   * the opaque objects here have none.
   */
  function ToArray(v: Value): (a: seq<(Key, Value)>)
    ensures v.Arr? ==> a == v.entries
    ensures v.Null? || v.Object? ==> a == []
    ensures v.Bool? || v.Int? || v.Str? ==> a == [(IntKey(0), v)]
  {
    match v
    case Null => []
    case Arr(es) => es
    case Object(_) => []
    case _ => [(IntKey(0), v)]
  }

  // ---------------------------------------------------------------------
  // is_numeric() on an array key
  // ---------------------------------------------------------------------

  predicate IsWhitespace(c: char) {
    c == ' ' || c == '\t' || c == '\n' || c == '\r' || c == '\U{000B}' || c == '\U{000C}'
  }

  predicate IsDigit(c: char) {
    '0' <= c <= '9'
  }

  /** The first index at or after `i` whose character does not satisfy `p`. */
  function SkipWhile(s: string, i: nat, p: char -> bool): (j: nat)
    requires i <= |s|
    ensures i <= j <= |s|
    ensures forall k :: i <= k < j ==> p(s[k])
    ensures j < |s| ==> !p(s[j])
    decreases |s| - i
  {
    if i < |s| && p(s[i]) then SkipWhile(s, i + 1, p) else i
  }

  /**
   * The end of an optional exponent (`e` or `E`, an optional sign and at
   * least one digit) that starts at `i`; None when an `e` has no digits.
   */
  function ExponentEnd(s: string, i: nat): (r: Option<nat>)
    requires i <= |s|
    ensures r.Some? ==> i <= r.value <= |s|
  {
    if i < |s| && (s[i] == 'e' || s[i] == 'E') then
      var f := if i + 1 < |s| && (s[i + 1] == '+' || s[i + 1] == '-') then i + 2 else i + 1;
      var g := SkipWhile(s, f, IsDigit);
      if g > f then Some(g) else None
    else Some(i)
  }

  /**
   * A numeric string in the sense of PHP 8: optional leading whitespace, an
   * optional sign, digits with at most one decimal point and at least one
   * digit, an optional exponent, and optional trailing whitespace.
   */
  predicate IsNumericString(s: string) {
    var a := SkipWhile(s, 0, IsWhitespace);
    var b := if a < |s| && (s[a] == '+' || s[a] == '-') then a + 1 else a;
    var c := SkipWhile(s, b, IsDigit);
    var d := if c < |s| && s[c] == '.' then SkipWhile(s, c + 1, IsDigit) else c;
    var digits := (c - b) + (if d > c then d - c - 1 else 0);
    var e := ExponentEnd(s, d);
    digits > 0 && e.Some? && SkipWhile(s, e.value, IsWhitespace) == |s|
  }

  /** `is_numeric($key)` for an array key. */
  predicate IsNumericKey(k: Key) {
    match k
    case IntKey(_) => true
    case StrKey(s) => IsNumericString(s)
  }

  // ---------------------------------------------------------------------
  // pluginSplit(): the name after the first dot
  // ---------------------------------------------------------------------

  /** The index of the first '.' in `s`, if any. */
  function FirstDot(s: string): (r: Option<nat>)
    ensures r.Some? ==> r.value < |s| && s[r.value] == '.' && '.' !in s[..r.value]
    ensures r.None? ==> '.' !in s
  {
    if s == [] then None
    else if s[0] == '.' then Some(0)
    else
      match FirstDot(s[1..])
      case None => None
      case Some(i) =>
        assert s[..i + 1] == [s[0]] + s[1..][..i];
        Some(i + 1)
  }

  /** The second part of `pluginSplit($name)`: everything after the first dot, or the whole name. */
  function AfterFirstDot(s: string): (r: string)
    ensures '.' !in s ==> r == s
    ensures forall i :: 0 <= i < |s| && s[i] == '.' && '.' !in s[..i] ==> r == s[i + 1..]
  {
    match FirstDot(s)
    case None => s
    case Some(i) =>
      assert forall j :: 0 <= j < |s| && s[j] == '.' && '.' !in s[..j] ==> j == i by {
        forall j | 0 <= j < |s| && s[j] == '.' && '.' !in s[..j] ensures j == i {
          assert s[j] in s[..i] || j >= i;
          assert s[i] in s[..j] || i >= j;
        }
      }
      s[i + 1..]
  }
}
