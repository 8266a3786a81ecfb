/**
  PHP's `explode($delimiter, $string)` for a one-character delimiter, and its
  inverse `implode`. `explode` returns the maximal delimiter-free pieces
  between delimiter occurrences, so it always yields one more piece than the
  string has delimiters (the empty string yields one empty piece).
 */
module Explode {

  function Explode(sep: char, s: string): (parts: seq<string>)
    ensures |parts| == multiset(s)[sep] + 1
    ensures forall i :: 0 <= i < |parts| ==> sep !in parts[i]
    decreases |s|
  {
    if |s| == 0 then
      [""]
    else
      assert s == [s[0]] + s[1..];
      var rest := Explode(sep, s[1..]);
      if s[0] == sep then [""] + rest
      else [[s[0]] + rest[0]] + rest[1..]
  }

  /** `implode($sep, $parts)`: the pieces joined by the delimiter. */
  function Implode(sep: char, parts: seq<string>): (s: string)
    requires |parts| >= 1
    ensures |s| >= |parts| - 1
    decreases |parts|
  {
    if |parts| == 1 then parts[0]
    else parts[0] + [sep] + Implode(sep, parts[1..])
  }

  /** Exploding and then imploding gives back the original string. */
  lemma {:induction false} ImplodeExplode(sep: char, s: string)
    ensures Implode(sep, Explode(sep, s)) == s
    decreases |s|
  {
    if |s| > 0 {
      var rest := Explode(sep, s[1..]);
      ImplodeExplode(sep, s[1..]);
      if s[0] != sep {
        ImplodeCons(sep, [s[0]], rest);
      }
    }
  }

  /** Prefixing the first piece prefixes the imploded string. */
  lemma ImplodeCons(sep: char, x: string, parts: seq<string>)
    requires |parts| >= 1
    ensures Implode(sep, [x + parts[0]] + parts[1..]) == x + Implode(sep, parts)
  {
  }

  /** A delimiter-free prefix is glued onto the first piece. */
  lemma {:induction false} ExplodeAppend(sep: char, a: string, t: string)
    requires sep !in a
    ensures Explode(sep, a + t) == [a + Explode(sep, t)[0]] + Explode(sep, t)[1..]
    decreases |a|
  {
    if |a| > 0 {
      assert (a + t)[1..] == a[1..] + t;
      assert (a + t)[0] == a[0];
      ExplodeAppend(sep, a[1..], t);
      assert [a[0]] + (a[1..] + Explode(sep, t)[0]) == a + Explode(sep, t)[0];
    } else {
      var ex := Explode(sep, t);
      assert a + t == t;
      assert a + ex[0] == ex[0];
      assert [ex[0]] + ex[1..] == ex;
    }
  }

  /** A leading delimiter yields a leading empty piece. */
  lemma ExplodeStartsWithSep(sep: char, t: string)
    ensures Explode(sep, [sep] + t) == [""] + Explode(sep, t)
  {
  }

  /** A delimiter-free string explodes to itself alone. */
  lemma ExplodeFree(sep: char, a: string)
    requires sep !in a
    ensures Explode(sep, a) == [a]
  {
    ExplodeAppend(sep, a, "");
    assert a + "" == a;
    assert Explode(sep, "") == [""];
  }

  /** One step of ExplodeImplode: a delimiter-free head in front of pieces that already round-trip. */
  lemma ExplodeImplodeStep(sep: char, head: string, rest: seq<string>)
    requires sep !in head && |rest| >= 1
    requires Explode(sep, Implode(sep, rest)) == rest
    ensures Explode(sep, Implode(sep, [head] + rest)) == [head] + rest
  {
    var tail := Implode(sep, rest);
    var t := [sep] + tail;
    assert ([head] + rest)[1..] == rest;
    assert Implode(sep, [head] + rest) == head + t;
    ExplodeStartsWithSep(sep, tail);
    ExplodeAppend(sep, head, t);
    assert head + "" == head;
  }

  /** Imploding delimiter-free pieces and exploding again gives back the pieces. */
  lemma {:induction false} ExplodeImplode(sep: char, parts: seq<string>)
    requires |parts| >= 1
    requires forall i :: 0 <= i < |parts| ==> sep !in parts[i]
    ensures Explode(sep, Implode(sep, parts)) == parts
    decreases |parts|
  {
    if |parts| == 1 {
      ExplodeFree(sep, parts[0]);
    } else {
      ExplodeImplode(sep, parts[1..]);
      ExplodeImplodeStep(sep, parts[0], parts[1..]);
      assert parts == [parts[0]] + parts[1..];
    }
  }

  /** Three pieces implode to the first, a delimiter, the second, a delimiter, the third. */
  lemma ImplodeThree(sep: char, a: string, b: string, c: string)
    ensures Implode(sep, [a, b, c]) == a + [sep] + b + [sep] + c
  {
    assert [a, b, c][1..] == [b, c];
    assert [b, c][1..] == [c];
    assert Implode(sep, [c]) == c;
    assert Implode(sep, [b, c]) == b + [sep] + c;
    assert Implode(sep, [a, b, c]) == a + [sep] + (b + [sep] + c);
  }
}
