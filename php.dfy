/** PHP values, ordered associative arrays, and the few standard-library
    string primitives (join, rtrim, string conversion) the backend relies on. */
module Php {

  datatype Option<T> = None | Some(value: T)

  /** A PHP value as the backend handles it. Arrays are ordered; a JSON list
      decodes to an array keyed by the decimal strings of its indices. */
  datatype Value =
    | Null
    | Bool(b: bool)
    | Int(i: int)
    | Str(s: string)
    | Array(entries: seq<(string, Value)>)

  /** The library calls whose behaviour is not modelled, as uninterpreted functions. */
  datatype Runtime = Runtime(
    jsonEncode: Value -> string,   // json_encode
    jsonDecode: Value -> Value,    // json_decode applied to a fetched cell
    intval: Value -> int)          // intval applied to a fetched cell

  // ---------------------------------------------------------------------------
  // Ordered associative arrays
  // ---------------------------------------------------------------------------

  predicate UniqueKeys<T>(m: seq<(string, T)>) {
    forall i, j :: 0 <= i < j < |m| ==> m[i].0 != m[j].0
  }

  /** A PHP array: its entries in insertion order, with pairwise distinct keys. */
  type Assoc<T> = m: seq<(string, T)> | UniqueKeys(m) witness []

  /** array_keys */
  function Keys<T>(m: seq<(string, T)>): (r: seq<string>)
    ensures |r| == |m|
    ensures forall i :: 0 <= i < |m| ==> r[i] == m[i].0
  {
    if m == [] then [] else Keys(m[..|m| - 1]) + [m[|m| - 1].0]
  }

  /** `$m[$k]` on an array with unique keys (searched from the end, so on
      the entries of a PHP array it finds the only entry with that key). */
  function Lookup<T>(m: seq<(string, T)>, k: string): (r: Option<T>)
    ensures r.Some? <==> k in Keys(m)
    ensures r.Some? ==> (k, r.value) in m
  {
    if m == [] then None
    else if m[|m| - 1].0 == k then Some(m[|m| - 1].1)
    else
      var r := Lookup(m[..|m| - 1], k);
      assert Keys(m) == Keys(m[..|m| - 1]) + [m[|m| - 1].0];
      r
  }

  /** `isset($m[$k])`: the key is present and its value is not null. */
  predicate Isset(m: seq<(string, Value)>, k: string) {
    match Lookup(m, k)
    case None => false
    case Some(v) => v != Null
  }

  lemma {:induction false} LookupAt<T>(m: seq<(string, T)>, i: nat)
    requires UniqueKeys(m) && i < |m|
    ensures Lookup(m, m[i].0) == Some(m[i].1)
  {
    if i < |m| - 1 {
      LookupAt(m[..|m| - 1], i);
    }
  }

  /** Looking a key up in a concatenation finds it in the later part first. */
  /** Looking up in an array with one more entry at its end. */
  lemma LookupSnoc<T>(m: seq<(string, T)>, e: (string, T), k: string)
    ensures Lookup(m + [e], k) == if e.0 == k then Some(e.1) else Lookup(m, k)
  {
    assert (m + [e])[..|m|] == m;
  }

  lemma {:induction false} LookupConcat<T>(a: seq<(string, T)>, b: seq<(string, T)>, k: string)
    ensures Lookup(a + b, k) == if k in Keys(b) then Lookup(b, k) else Lookup(a, k)
  {
    if b != [] {
      var n := |b| - 1;
      assert (a + b)[..|a + b| - 1] == a + b[..n];
      assert Keys(b) == Keys(b[..n]) + [b[n].0];
      LookupConcat(a, b[..n], k);
    } else {
      assert a + b == a;
    }
  }

  lemma {:induction false} UniqueKeysConcat<T>(a: seq<(string, T)>, b: seq<(string, T)>)
    requires UniqueKeys(a) && UniqueKeys(b)
    requires forall k :: k in Keys(b) ==> k !in Keys(a)
    ensures UniqueKeys(a + b)
  {
    forall i, j | 0 <= i < j < |a + b| ensures (a + b)[i].0 != (a + b)[j].0 {
      if j < |a| {
        assert (a + b)[i] == a[i] && (a + b)[j] == a[j];
      } else if i >= |a| {
        assert (a + b)[i] == b[i - |a|] && (a + b)[j] == b[j - |a|];
      } else {
        var k := (a + b)[j].0;
        assert Keys(b)[j - |a|] == k;
        assert k in Keys(b);
        assert Keys(a)[i] == (a + b)[i].0;
      }
    }
  }

  // ---------------------------------------------------------------------------
  // Strings
  // ---------------------------------------------------------------------------

  /** `join(sep, xs)`: the elements separated by sep. */
  function Join(sep: string, xs: seq<string>): string {
    if |xs| == 0 then ""
    else if |xs| == 1 then xs[0]
    else Join(sep, xs[..|xs| - 1]) + sep + xs[|xs| - 1]
  }

  /** Each element followed by sep, as `$s .= $x . sep` in a loop builds it. */
  function Terminated(sep: string, xs: seq<string>): string {
    if xs == [] then "" else Terminated(sep, xs[..|xs| - 1]) + xs[|xs| - 1] + sep
  }

  lemma TerminatedOne(sep: string, x: string)
    ensures Terminated(sep, [x]) == x + sep
  {
    assert [x][..0] == [];
    assert [] + [x] == [x];
    assert "" + x == x;
  }

  lemma {:induction false} TerminatedIsJoinThenSep(sep: string, xs: seq<string>)
    requires xs != []
    ensures Terminated(sep, xs) == Join(sep, xs) + sep
  {
    if |xs| > 1 {
      TerminatedIsJoinThenSep(sep, xs[..|xs| - 1]);
    }
  }

  /** The last character of a join is the last character of its last element. */
  lemma {:induction false} JoinEnd(sep: string, xs: seq<string>)
    requires xs != [] && xs[|xs| - 1] != []
    ensures Join(sep, xs) != []
    ensures Join(sep, xs)[|Join(sep, xs)| - 1] == xs[|xs| - 1][|xs[|xs| - 1]| - 1]
  {
  }

  /** `rtrim(s, chars)`: s without its longest suffix made only of characters in chars. */
  function RTrim(s: string, chars: set<char>): (r: string)
    ensures r <= s
    ensures r == [] || r[|r| - 1] !in chars
    ensures forall i :: |r| <= i < |s| ==> s[i] in chars
  {
    if s != [] && s[|s| - 1] in chars then RTrim(s[..|s| - 1], chars) else s
  }

  /** rtrim never reaches into a prefix that ends with a kept character. */
  lemma RTrimKeepsPrefix(p: string, t: string, chars: set<char>)
    requires p != [] && p[|p| - 1] !in chars
    ensures p <= RTrim(p + t, chars)
  {
    var s := p + t;
    assert s[|p| - 1] == p[|p| - 1];
    assert s[..|p|] == p;
  }

  /** Appending only trimmed characters does not change what rtrim leaves. */
  lemma {:induction false} RTrimIgnoresTail(s: string, t: string, chars: set<char>)
    requires forall i :: 0 <= i < |t| ==> t[i] in chars
    ensures RTrim(s + t, chars) == RTrim(s, chars)
  {
    if t != [] {
      var n := |t| - 1;
      assert (s + t)[..|s + t| - 1] == s + t[..n];
      RTrimIgnoresTail(s, t[..n], chars);
    } else {
      assert s + t == s;
    }
  }

  /** rtrim leaves exactly s when only trimmed characters follow its kept last one. */
  lemma RTrimTrailing(s: string, t: string, chars: set<char>)
    requires s != [] && s[|s| - 1] !in chars
    requires forall i :: 0 <= i < |t| ==> t[i] in chars
    ensures RTrim(s + t, chars) == s
  {
    RTrimIgnoresTail(s, t, chars);
  }

  /** The first and the last part of a three-part concatenation. */
  lemma ConcatEnds5(a: string, b: string, c: string, d: string, e: string)
    ensures a <= a + b + c + d + e
    ensures (a + b + c + d + e)[|a| + |b|..] == c + d + e
  {
    var r := a + b + c + d + e;
    assert r[..|a|] == a;
  }

  lemma ConcatEnds(head: string, mid: string, tail: string)
    ensures head <= head + mid + tail
    ensures (head + mid + tail)[|head| + |mid|..] == tail
  {
    var r := head + mid + tail;
    assert r[..|head|] == head;
  }

  function Digit(d: nat): (c: char)
    requires d < 10
  {
    (48 + d) as char
  }

  /** The decimal representation of a natural number. */
  function DecimalDigits(n: nat): (r: string)
    ensures r != []
    ensures forall i :: 0 <= i < |r| ==> '0' <= r[i] <= '9'
  {
    if n < 10 then [Digit(n)] else DecimalDigits(n / 10) + [Digit(n % 10)]
  }

  /** PHP's conversion of a value to a string (`(string)$v`). Arrays convert to "Array". */
  function ToText(v: Value): string {
    match v
    case Null => ""
    case Bool(b) => if b then "1" else ""
    case Int(i) => if i < 0 then "-" + DecimalDigits(-i) else DecimalDigits(i)
    case Str(s) => s
    case Array(_) => "Array"
  }

  /** An integer's text is non-empty and ends with a decimal digit. */
  lemma IntTextEndsWithDigit(i: int)
    ensures ToText(Int(i)) != []
    ensures '0' <= ToText(Int(i))[|ToText(Int(i))| - 1] <= '9'
  {
  }
}
