/** Sums of resource vectors over finite maps. */
module Sums {
  import opened Resources

  /** The componentwise sum of all values of the map, in whatever order they are met. */
  ghost function Total(m: map<string, Vec>): Vec
    decreases |m|
  {
    if m == map[] then ZERO
    else
      var id :| id in m;
      Add(m[id], Total(m - {id}))
  }

  lemma AddSwap(a: Vec, b: Vec, c: Vec)
    ensures Add(a, Add(b, c)) == Add(b, Add(a, c))
  {
  }

  /** Any one entry can be taken out first. */
  lemma {:induction false} TotalExtract(m: map<string, Vec>, id: string)
    requires id in m
    ensures Total(m) == Add(m[id], Total(m - {id}))
    decreases |m|
  {
    var first :| first in m && Total(m) == Add(m[first], Total(m - {first}));
    if first != id {
      var rest := m - {first};
      assert |rest| == |m| - 1 && |m - {id}| == |m| - 1 by {
        assert rest.Keys == m.Keys - {first} && (m - {id}).Keys == m.Keys - {id};
      }
      TotalExtract(rest, id);
      TotalExtract(m - {id}, first);
      assert rest - {id} == m - {id} - {first};
      AddSwap(m[first], m[id], Total(rest - {id}));
    }
  }

  lemma TotalAfterInsert(m: map<string, Vec>, id: string, v: Vec)
    requires id !in m
    ensures Total(m[id := v]) == Add(Total(m), v)
  {
    TotalExtract(m[id := v], id);
    assert m[id := v] - {id} == m;
  }

  lemma TotalAfterRemoval(m: map<string, Vec>, id: string)
    requires id in m
    ensures Total(m - {id}) == Minus(Total(m), m[id])
  {
    TotalExtract(m, id);
    AddThenMinus(m[id], Total(m - {id}));
  }

  lemma AddThenMinus(a: Vec, b: Vec)
    ensures Minus(Add(a, b), a) == b
  {
  }

  lemma {:induction false} TotalNonNegative(m: map<string, Vec>)
    requires forall id :: id in m ==> NonNegative(m[id])
    ensures NonNegative(Total(m))
    decreases |m|
  {
    if m != map[] {
      var first :| first in m;
      TotalExtract(m, first);
      assert (m - {first}).Keys == m.Keys - {first};
      TotalNonNegative(m - {first});
    }
  }

  /** Of non-negative entries, no single one exceeds the sum. */
  lemma EntryBelowTotal(m: map<string, Vec>, id: string)
    requires id in m && forall other :: other in m ==> NonNegative(m[other])
    ensures NonNegative(Minus(Total(m), m[id]))
  {
    TotalAfterRemoval(m, id);
    TotalNonNegative(m - {id});
  }
}
