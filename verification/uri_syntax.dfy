/**
 * The small amount of URI syntax needed to read a composed link back:
 * cutting at the first delimiter, `Array.prototype.join` and its inverse
 * split, and `key=value` parameter lists.
 */
module UriSyntax {
  import opened Wrappers

  /** Splits `s` at the first `c`: the text before it and after it, or None when `c` is absent. */
  function CutAt(s: string, c: char): (r: Option<(string, string)>)
    ensures r.None? <==> c !in s
    ensures r.Some? ==> s == r.value.0 + [c] + r.value.1 && c !in r.value.0
  {
    if s == [] then None
    else if s[0] == c then Some(([], s[1..]))
    else match CutAt(s[1..], c)
      case None => None
      case Some((a, b)) => Some(([s[0]] + a, b))
  }

  /** The first `c` of `a + [c] + b` is the one after `a` when `a` has none. */
  lemma {:induction false} CutAtFirst(a: string, c: char, b: string)
    requires c !in a
    ensures CutAt(a + [c] + b, c) == Some((a, b))
    decreases |a|
  {
    var s := a + [c] + b;
    if a == [] {
      assert s == [c] + b;
    } else {
      assert s[0] == a[0] && s[1..] == a[1..] + [c] + b;
      CutAtFirst(a[1..], c, b);
      assert [a[0]] + a[1..] == a;
    }
  }

  /** `Array.prototype.join` with a one-character separator. */
  function Join(parts: seq<string>, sep: char): string {
    if |parts| == 0 then []
    else if |parts| == 1 then parts[0]
    else parts[0] + [sep] + Join(parts[1..], sep)
  }

  lemma JoinThree(a: string, b: string, c: string, sep: char)
    ensures Join([a, b, c], sep) == a + [sep] + b + [sep] + c
  {
    assert [a, b, c][1..] == [b, c];
    assert [b, c][1..] == [c];
    assert Join([c], sep) == c;
    assert Join([b, c], sep) == b + [sep] + c;
  }

  lemma JoinFour(a: string, b: string, c: string, d: string, sep: char)
    ensures Join([a, b, c, d], sep) == a + [sep] + (b + [sep] + c + [sep] + d)
  {
    assert [a, b, c, d][1..] == [b, c, d];
    JoinThree(b, c, d, sep);
  }

  /** Splitting at every `sep`; joining the pieces again gives back `s`. */
  function Split(s: string, sep: char): (parts: seq<string>)
    ensures |parts| >= 1
    ensures forall k | 0 <= k < |parts| :: sep !in parts[k]
    ensures Join(parts, sep) == s
    decreases |s|
  {
    match CutAt(s, sep)
    case None => [s]
    case Some((a, b)) => [a] + Split(b, sep)
  }

  /** Splitting undoes joining when no piece holds the separator. */
  lemma {:induction false} SplitJoin(parts: seq<string>, sep: char)
    requires |parts| >= 1
    requires forall k | 0 <= k < |parts| :: sep !in parts[k]
    ensures Split(Join(parts, sep), sep) == parts
    decreases |parts|
  {
    if |parts| > 1 {
      CutAtFirst(parts[0], sep, Join(parts[1..], sep));
      SplitJoin(parts[1..], sep);
      assert [parts[0]] + parts[1..] == parts;
    }
  }

  /** One `key=value` piece; a piece without `=` is a key with an empty value. */
  function Param(piece: string): (string, string) {
    match CutAt(piece, '=')
    case None => (piece, [])
    case Some((k, v)) => (k, v)
  }

  /** The `key=value` pieces of an `&`-separated parameter list, in order. */
  function Params(q: string): seq<(string, string)> {
    var pieces := Split(q, '&');
    seq(|pieces|, i requires 0 <= i < |pieces| => Param(pieces[i]))
  }

  /** `key=value` written out. */
  function Pair(kv: (string, string)): string {
    kv.0 + "=" + kv.1
  }

  /** Keys without `&` or `=` and values without `&` survive a write and read of their parameter list. */
  predicate PlainPairs(pairs: seq<(string, string)>) {
    forall k | 0 <= k < |pairs| :: '&' !in pairs[k].0 && '=' !in pairs[k].0 && '&' !in pairs[k].1
  }

  function Pairs(pairs: seq<(string, string)>): seq<string> {
    seq(|pairs|, i requires 0 <= i < |pairs| => Pair(pairs[i]))
  }

  /** Reading a written parameter list gives back its pairs, in order. */
  lemma ParamsOfPairs(pairs: seq<(string, string)>)
    requires |pairs| >= 1 && PlainPairs(pairs)
    ensures Params(Join(Pairs(pairs), '&')) == pairs
  {
    var written := Pairs(pairs);
    forall k | 0 <= k < |written|
      ensures '&' !in written[k]
    {
      assert written[k] == pairs[k].0 + ['='] + pairs[k].1;
    }
    SplitJoin(written, '&');
    forall k | 0 <= k < |pairs|
      ensures Param(written[k]) == pairs[k]
    {
      CutAtFirst(pairs[k].0, '=', pairs[k].1);
      assert written[k] == pairs[k].0 + ['='] + pairs[k].1;
    }
  }
}
