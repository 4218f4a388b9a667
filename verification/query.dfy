/**
 * Query strings of the remote API's request URLs: `base?k1=v1&k2=v2...`.
 * `Url` renders a parameter list; `Value` reads a parameter back from a rendered URL the
 * way the remote end parses it. `RenderedValue` connects the two.
 */
module Query {
  import opened Wrappers

  datatype Param = Param(key: string, value: string)

  function Pair(p: Param): string
  {
    p.key + "=" + p.value
  }

  function Join(ps: seq<Param>): string
  {
    if |ps| == 0 then ""
    else if |ps| == 1 then Pair(ps[0])
    else Pair(ps[0]) + "&" + Join(ps[1..])
  }

  function Url(base: string, ps: seq<Param>): string
  {
    base + "?" + Join(ps)
  }

  /** `s` cut at every `sep`. */
  function Split(s: string, sep: char): (parts: seq<string>)
    ensures |parts| >= 1
    decreases |s|
  {
    if s == [] then [""]
    else
      var rest := Split(s[1..], sep);
      if s[0] == sep then [""] + rest else [[s[0]] + rest[0]] + rest[1..]
  }

  /** What follows the first `c` in `s` (empty when there is none). */
  function After(s: string, c: char): string
    decreases |s|
  {
    if s == [] then "" else if s[0] == c then s[1..] else After(s[1..], c)
  }

  /** The value of the first `key=value` among `parts`. */
  function Lookup(parts: seq<string>, key: string): Option<string>
  {
    if parts == [] then None
    else if key + "=" <= parts[0] then Some(parts[0][|key| + 1..])
    else Lookup(parts[1..], key)
  }

  /** The value of parameter `key` in URL `url`, as a server reads it. */
  function Value(url: string, key: string): Option<string>
  {
    Lookup(Split(After(url, '?'), '&'), key)
  }

  /** The value of the first parameter named `key` in a parameter list. */
  function Find(ps: seq<Param>, key: string): Option<string>
  {
    if ps == [] then None else if ps[0].key == key then Some(ps[0].value) else Find(ps[1..], key)
  }

  /** A parameter that precedes every other parameter with the same key is the one found. */
  lemma {:induction false} FindAt(ps: seq<Param>, i: nat)
    requires i < |ps|
    requires forall j :: 0 <= j < i ==> ps[j].key != ps[i].key
    ensures Find(ps, ps[i].key) == Some(ps[i].value)
    decreases i
  {
    if i > 0 {
      FindAt(ps[1..], i - 1);
    }
  }

  /** A key or value that needs no escaping in a query string. */
  predicate Plain(s: string)
  {
    '&' !in s && '=' !in s
  }

  predicate PlainParams(ps: seq<Param>)
  {
    forall i :: 0 <= i < |ps| ==> Plain(ps[i].key) && '&' !in ps[i].value
  }

  function Pairs(ps: seq<Param>): (r: seq<string>)
    ensures |r| == |ps|
  {
    if ps == [] then [] else [Pair(ps[0])] + Pairs(ps[1..])
  }

  lemma {:induction false} SplitNoSeparator(a: string, sep: char)
    requires sep !in a
    ensures Split(a, sep) == [a]
    decreases |a|
  {
    if a != [] {
      SplitNoSeparator(a[1..], sep);
      assert [a[0]] + a[1..] == a;
    }
  }

  lemma {:induction false} SplitAtSeparator(a: string, sep: char, b: string)
    requires sep !in a
    ensures Split(a + [sep] + b, sep) == [a] + Split(b, sep)
    decreases |a|
  {
    var s := a + [sep] + b;
    if a == [] {
      assert s[1..] == b;
    } else {
      assert s[1..] == a[1..] + [sep] + b;
      SplitAtSeparator(a[1..], sep, b);
      assert [a[0]] + a[1..] == a;
    }
  }

  lemma {:induction false} SplitJoin(ps: seq<Param>)
    requires ps != [] && PlainParams(ps)
    ensures Split(Join(ps), '&') == Pairs(ps)
    decreases |ps|
  {
    assert '&' !in Pair(ps[0]) by {
      assert Plain(ps[0].key) && '&' !in ps[0].value;
    }
    if |ps| == 1 {
      SplitNoSeparator(Pair(ps[0]), '&');
    } else {
      assert PlainParams(ps[1..]) by {
        forall i | 0 <= i < |ps| - 1 ensures Plain(ps[1..][i].key) && '&' !in ps[1..][i].value {
          assert ps[1..][i] == ps[i + 1];
        }
      }
      SplitJoin(ps[1..]);
      SplitAtSeparator(Pair(ps[0]), '&', Join(ps[1..]));
    }
  }

  /** `key=` is a prefix of `k=v` exactly when the keys agree, for keys without `=`. */
  lemma KeyPrefix(key: string, p: Param)
    requires '=' !in key && '=' !in p.key
    ensures (key + "=" <= Pair(p)) <==> key == p.key
    ensures key == p.key ==> Pair(p)[|key| + 1..] == p.value
  {
    var s := Pair(p);
    assert forall i :: 0 <= i < |p.key| ==> s[i] == p.key[i];
    assert s[|p.key|] == '=';
    if key + "=" <= s {
      assert forall i :: 0 <= i < |key| ==> s[i] == key[i];
      assert s[|key|] == '=';
      assert |key| == |p.key|;
      assert key == s[..|key|] == p.key;
    }
  }

  lemma {:induction false} LookupPairs(ps: seq<Param>, key: string)
    requires PlainParams(ps) && '=' !in key
    ensures Lookup(Pairs(ps), key) == Find(ps, key)
    decreases |ps|
  {
    if ps != [] {
      assert Plain(ps[0].key);
      KeyPrefix(key, ps[0]);
      assert Pairs(ps)[1..] == Pairs(ps[1..]);
      assert PlainParams(ps[1..]) by {
        forall i | 0 <= i < |ps| - 1 ensures Plain(ps[1..][i].key) && '&' !in ps[1..][i].value {
          assert ps[1..][i] == ps[i + 1];
        }
      }
      LookupPairs(ps[1..], key);
    }
  }

  lemma {:induction false} AfterFirst(base: string, c: char, q: string)
    requires c !in base
    ensures After(base + [c] + q, c) == q
    decreases |base|
  {
    var s := base + [c] + q;
    if base == [] {
      assert s[1..] == q;
    } else {
      assert s[1..] == base[1..] + [c] + q;
      AfterFirst(base[1..], c, q);
    }
  }

  /**
   * Reading parameter `key` back from a rendered URL gives the value the parameter list
   * holds for it: the request carries exactly the parameters it was built from.
   */
  lemma RenderedValue(base: string, ps: seq<Param>, key: string)
    requires '?' !in base && ps != [] && PlainParams(ps) && '=' !in key
    ensures Value(Url(base, ps), key) == Find(ps, key)
  {
    AfterFirst(base, '?', Join(ps));
    SplitJoin(ps);
    LookupPairs(ps, key);
  }
}
