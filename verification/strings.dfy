/** Text helpers shared by the digest formatter: Python's `str.join` and
    "occurs as a contiguous piece of". */
module Strings {

  /** `sep.join(parts)`: the parts in order, with `sep` between neighbours
      and nothing before the first or after the last. */
  function Join(sep: string, parts: seq<string>): string
  {
    if parts == [] then ""
    else if |parts| == 1 then parts[0]
    else parts[0] + sep + Join(sep, parts[1..])
  }

  /** `a` appears in `b` starting at offset `k`. */
  predicate OccursAt(a: string, b: string, k: nat)
  {
    k + |a| <= |b| && b[k..k + |a|] == a
  }

  /** `a` appears somewhere in `b` as a contiguous piece. */
  ghost predicate Occurs(a: string, b: string)
  {
    exists k: nat :: OccursAt(a, b, k)
  }

  /** Every part of a join is visible in the joined text; the offset returned
      is where part `i` starts. */
  lemma {:induction false} JoinOffset(sep: string, parts: seq<string>, i: nat) returns (k: nat)
    requires i < |parts|
    ensures OccursAt(parts[i], Join(sep, parts), k)
  {
    if i == 0 {
      k := 0;
      if |parts| > 1 {
        assert Join(sep, parts) == parts[0] + (sep + Join(sep, parts[1..]));
      }
    } else {
      var k' := JoinOffset(sep, parts[1..], i - 1);
      var rest := Join(sep, parts[1..]);
      k := |parts[0]| + |sep| + k';
      assert Join(sep, parts) == (parts[0] + sep) + rest;
      assert Join(sep, parts)[k..k + |parts[i]|] == rest[k'..k' + |parts[i]|];
    }
  }

  /** A piece of the middle of a concatenation is a piece of the whole. */
  lemma OccursInConcat(a: string, x: string, b: string, y: string)
    requires Occurs(a, b)
    ensures Occurs(a, x + b + y)
  {
    var k: nat :| OccursAt(a, b, k);
    assert (x + b + y)[|x| + k..|x| + k + |a|] == b[k..k + |a|];
    assert OccursAt(a, x + b + y, |x| + k);
  }
}
