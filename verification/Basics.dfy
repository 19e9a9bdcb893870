/** Definitions shared by the other modules. */
module Basics {
  datatype Option<T> = None | Some(value: T)

  /** The number of values of a C `uint`. */
  const UINT: nat := 0x1_0000_0000

  function Min(a: nat, b: nat): nat {
    if a < b then a else b
  }

  function Max(a: nat, b: nat): nat {
    if a < b then b else a
  }

  // ---- sizes of sets ----

  lemma Fewer(a: set<nat>, b: set<nat>)
    requires a <= b
    ensures |a| <= |b|
  {
    assert b == a + (b - a);
  }

  lemma StrictlyFewer(a: set<nat>, b: set<nat>, x: nat)
    requires a <= b - {x} && x in b
    ensures |a| < |b|
  {
    Fewer(a, b - {x});
  }

  lemma Outside(a: set<nat>, b: set<nat>) returns (x: nat)
    requires |b| < |a|
    ensures x in a && x !in b
  {
    Fewer(a * b, b);
    assert a == (a - b) + a * b;
    assert a - b != {};
    x :| x in a - b;
  }

  /** The numbers from a up to b. */
  function {:induction false} Span(a: nat, b: nat): (s: set<nat>)
    ensures forall i: nat :: i in s <==> a <= i < b
    decreases b
  {
    if b <= a then {} else Span(a, b - 1) + {b - 1}
  }

  lemma {:induction false} SpanSize(a: nat, b: nat)
    requires a <= b
    ensures |Span(a, b)| == b - a
    decreases b
  {
    if a < b { SpanSize(a, b - 1); }
  }
}
