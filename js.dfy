/** JavaScript values, the nullish/truthy tests the modelled code relies on,
    and the string operations it calls (startsWith, endsWith, lastIndexOf, `<`). */
module Js {

  /** `null` (and `undefined` where the code folds it into `null`) is `None`. */
  datatype Option<+T> = None | Some(value: T)

  /** The JavaScript values the modelled code inspects. Numbers are integers,
      with NaN kept apart because it is falsy. */
  datatype JsValue =
    | Undefined
    | Null
    | Bool(b: bool)
    | Num(n: int)
    | NaN
    | Str(s: string)
    | Arr(items: seq<JsValue>)
    | Obj(fields: map<string, JsValue>)
    | Func(id: nat)

  /** An exception: a TypeError raised by the code itself, or a value thrown by
      code outside the model. */
  datatype JsError = TypeError(message: string) | Thrown(value: JsValue)

  /** A call that returns a value or throws. */
  datatype Result<+T> = Ok(value: T) | Err(error: JsError)

  /** `v === null || v === undefined` */
  predicate Nullish(v: JsValue) {
    v.Undefined? || v.Null?
  }

  /** `Boolean(v)` */
  predicate Truthy(v: JsValue) {
    match v
    case Undefined => false
    case Null => false
    case Bool(b) => b
    case Num(n) => n != 0
    case NaN => false
    case Str(s) => s != ""
    case _ => true
  }

  /** A string as a JavaScript value is truthy exactly when it is not empty. */
  predicate TruthyString(s: Option<string>) {
    s.Some? && s.value != ""
  }

  predicate StartsWith(s: string, prefix: string) {
    |prefix| <= |s| && s[..|prefix|] == prefix
  }

  predicate EndsWith(s: string, suffix: string) {
    |suffix| <= |s| && s[|s| - |suffix|..] == suffix
  }

  /** `sep` occurs in `s` starting at position `j`. */
  predicate OccursAt(s: string, sep: string, j: int) {
    0 <= j && j + |sep| <= |s| && s[j..j + |sep|] == sep
  }

  /** `s.lastIndexOf(sep)`: the last position where `sep` occurs, -1 if none
      (an empty `sep` occurs last at `|s|`). */
  function LastIndexOf(s: string, sep: string): (r: int)
    ensures -1 <= r <= |s|
    ensures r >= 0 ==> OccursAt(s, sep, r)
    ensures forall j :: r < j ==> !OccursAt(s, sep, j)
  {
    LastIndexFrom(s, sep, |s| - |sep|)
  }

  function LastIndexFrom(s: string, sep: string, i: int): (r: int)
    requires i + |sep| <= |s|
    ensures r == -1 || 0 <= r <= i
    ensures r >= 0 ==> OccursAt(s, sep, r)
    ensures forall j :: r < j <= i ==> !OccursAt(s, sep, j)
    decreases i + 1
  {
    if i < 0 then -1
    else if OccursAt(s, sep, i) then i
    else LastIndexFrom(s, sep, i - 1)
  }

  /** JavaScript's `a < b` on strings: lexicographic on characters, a proper
      prefix sorting first. (Dafny's own `<` on sequences means proper prefix.)
      JavaScript compares UTF-16 code units, this compares characters: the two
      agree on strings without characters above U+FFFF, such as date keys. */
  predicate LexLess(a: string, b: string)
    decreases |a|
  {
    if a == [] then b != []
    else if b == [] then false
    else if a[0] != b[0] then a[0] < b[0]
    else LexLess(a[1..], b[1..])
  }

  /** What the merge of sorted key arrays needs of the order on keys. */
  ghost predicate StrictTotalOrder<T(!new)>(less: (T, T) -> bool) {
    && (forall x :: !less(x, x))
    && (forall x, y, z :: TransitiveAt(less, x, y, z))
    && (forall x, y :: x != y ==> less(x, y) || less(y, x))
  }

  /** Transitivity at one triple, named so that it is used only where a proof asks for it. */
  ghost predicate TransitiveAt<T>(less: (T, T) -> bool, x: T, y: T, z: T) {
    less(x, y) && less(y, z) ==> less(x, z)
  }

  lemma {:induction false} LexLessIrreflexive(a: string)
    ensures !LexLess(a, a)
  {
    if a != [] {
      LexLessIrreflexive(a[1..]);
    }
  }

  lemma {:induction false} LexLessTransitive(a: string, b: string, c: string)
    requires LexLess(a, b) && LexLess(b, c)
    ensures LexLess(a, c)
  {
    if a != [] && b != [] && c != [] && a[0] == b[0] && b[0] == c[0] {
      LexLessTransitive(a[1..], b[1..], c[1..]);
    }
  }

  lemma LexLessTransitiveAt(a: string, b: string, c: string)
    ensures TransitiveAt(LexLess, a, b, c)
  {
    if LexLess(a, b) && LexLess(b, c) {
      LexLessTransitive(a, b, c);
    }
  }

  lemma {:induction false} LexLessTotal(a: string, b: string)
    requires a != b
    ensures LexLess(a, b) || LexLess(b, a)
  {
    if a != [] && b != [] && a[0] == b[0] {
      assert a == [a[0]] + a[1..] && b == [b[0]] + b[1..];
      LexLessTotal(a[1..], b[1..]);
    }
  }

  /** String comparison is a strict total order, so sorted string keys can be merged. */
  lemma LexLessIsStrictTotalOrder()
    ensures StrictTotalOrder(LexLess)
  {
    forall x | true
      ensures !LexLess(x, x)
    {
      LexLessIrreflexive(x);
    }
    forall x, y, z
      ensures TransitiveAt(LexLess, x, y, z)
    {
      if LexLess(x, y) && LexLess(y, z) {
        LexLessTransitive(x, y, z);
      }
    }
    forall x, y | x != y
      ensures LexLess(x, y) || LexLess(y, x)
    {
      LexLessTotal(x, y);
    }
  }

  /** The characters `String.prototype.trim` removes: ECMAScript's WhiteSpace
      and LineTerminator code points. */
  predicate IsWhitespace(c: char) {
    || c == '\t' || c == '\n' || c == '\U{000B}' || c == '\U{000C}' || c == '\r' || c == ' '
    || c == '\U{00A0}' || c == '\U{1680}' || ('\U{2000}' <= c <= '\U{200A}')
    || c == '\U{2028}' || c == '\U{2029}' || c == '\U{202F}' || c == '\U{205F}' || c == '\U{3000}' || c == '\U{FEFF}'
  }

  /** `s.trimStart()`: the suffix of `s` from its first non-whitespace character. */
  function TrimStart(s: string): (r: string)
    ensures |r| <= |s| && r == s[|s| - |r|..]
    ensures r == [] || !IsWhitespace(r[0])
    ensures forall i :: 0 <= i < |s| - |r| ==> IsWhitespace(s[i])
  {
    if s == [] || !IsWhitespace(s[0]) then s else TrimStart(s[1..])
  }

  /** `s.trimEnd()`: the prefix of `s` up to its last non-whitespace character. */
  function TrimEnd(s: string): (r: string)
    ensures |r| <= |s| && r == s[..|r|]
    ensures r == [] || !IsWhitespace(r[|r| - 1])
    ensures forall i :: |r| <= i < |s| ==> IsWhitespace(s[i])
  {
    if s == [] || !IsWhitespace(s[|s| - 1]) then s else TrimEnd(s[..|s| - 1])
  }

  /** `s.trim()` */
  function Trim(s: string): string {
    TrimEnd(TrimStart(s))
  }

  /** A JS object used as a dictionary: its entries in insertion order. */
  type Dict<V> = seq<(string, V)>

  function Get<V>(d: Dict<V>, k: string): Option<V> {
    if d == [] then None else if d[0].0 == k then Some(d[0].1) else Get(d[1..], k)
  }

  /** No key occurs twice, as in any JS object. */
  predicate DistinctKeys<V>(d: Dict<V>) {
    d == [] || (Get(d[1..], d[0].0).None? && DistinctKeys(d[1..]))
  }

  /** `d[k] = v` on an object: an existing key keeps its place, a new key goes last. */
  function DictSet<V>(d: Dict<V>, k: string, v: V): (r: Dict<V>)
    ensures |r| == if Get(d, k).Some? then |d| else |d| + 1
  {
    if d == [] then [(k, v)]
    else if d[0].0 == k then [(k, v)] + d[1..]
    else [d[0]] + DictSet(d[1..], k, v)
  }

  lemma {:induction false} DictSetGet<V>(d: Dict<V>, k: string, v: V, j: string)
    ensures Get(DictSet(d, k, v), j) == if j == k then Some(v) else Get(d, j)
  {
    if d != [] && d[0].0 != k {
      DictSetGet(d[1..], k, v, j);
    }
  }

  lemma {:induction false} DictSetDistinct<V>(d: Dict<V>, k: string, v: V)
    requires DistinctKeys(d)
    ensures DistinctKeys(DictSet(d, k, v))
  {
    if d != [] && d[0].0 != k {
      DictSetDistinct(d[1..], k, v);
      DictSetGet(d[1..], k, v, d[0].0);
    }
  }

  /** `Object.keys(d)`. */
  function Keys<V>(d: Dict<V>): seq<string> {
    if d == [] then [] else [d[0].0] + Keys(d[1..])
  }

  lemma {:induction false} KeysGet<V>(d: Dict<V>, k: string)
    ensures k in Keys(d) <==> Get(d, k).Some?
  {
    if d != [] {
      KeysGet(d[1..], k);
    }
  }
}
