/** `SpanId::next_id` of fastrace/src/collector/id.rs: a random 32-bit prefix for each thread and a 32-bit suffix
    that wraps around. */
module SpanIds {
  const SUFFIX_LIMIT: nat := 0x1_0000_0000

  /** `(prefix as u64) << 32 | suffix` of two 32-bit numbers. */
  function Combined(prefix: nat, suffix: nat): nat {
    prefix * SUFFIX_LIMIT + suffix
  }

  class IdGenerator {
    var prefix: nat
    var suffix: nat
    // How many ids have been handed out.
    ghost var issued: nat

    ghost predicate Valid()
      reads this
    {
      prefix < SUFFIX_LIMIT && suffix == issued % SUFFIX_LIMIT
    }

    constructor (prefix: nat)
      requires prefix < SUFFIX_LIMIT
      ensures Valid() && this.prefix == prefix && issued == 0
    {
      this.prefix, suffix, issued := prefix, 0, 0;
    }

    method NextId() returns (id: nat)
      requires Valid()
      modifies this
      ensures Valid() && prefix == old(prefix) && issued == old(issued) + 1
      ensures id == IdAt(prefix, issued)
    {
      suffix := (suffix + 1) % SUFFIX_LIMIT;
      issued := issued + 1;
      id := Combined(prefix, suffix);
    }
  }

  /** The i-th id of a thread, counted from one. */
  function IdAt(prefix: nat, i: nat): nat {
    Combined(prefix, i % SUFFIX_LIMIT)
  }

  /** The prefix is the high half of an id, the number of the call modulo 2^32 the low half. */
  lemma {:induction false} IdHalves(prefix: nat, i: nat)
    ensures IdAt(prefix, i) / 0x1_0000_0000 == prefix
    ensures IdAt(prefix, i) % 0x1_0000_0000 == i % 0x1_0000_0000
  {
    var low := i % SUFFIX_LIMIT;
    assert IdAt(prefix, i) == prefix * 0x1_0000_0000 + low;
  }

  /** Ids are 64-bit numbers; those of one thread repeat with the period of the suffix and never sooner, and threads
      with different prefixes never share one. */
  lemma {:induction false} IdsCoincide(p: nat, i: nat, q: nat, j: nat)
    requires p < SUFFIX_LIMIT && q < SUFFIX_LIMIT
    ensures IdAt(p, i) < SUFFIX_LIMIT * SUFFIX_LIMIT
    ensures IdAt(p, i) == IdAt(q, j) <==> p == q && i % SUFFIX_LIMIT == j % SUFFIX_LIMIT
  {
    var a, b := i % SUFFIX_LIMIT, j % SUFFIX_LIMIT;
    if p < q {
      assert Combined(p, a) < (p + 1) * SUFFIX_LIMIT <= q * SUFFIX_LIMIT;
    } else if q < p {
      assert Combined(q, b) < (q + 1) * SUFFIX_LIMIT <= p * SUFFIX_LIMIT;
    }
  }

  /** An id is zero exactly when the thread drew the prefix zero and the suffix has just wrapped around, so the promise
      of a non-zero id holds for every prefix up to the 2^32 - 1st id of a thread and breaks at the next one. */
  lemma {:induction false} IdIsZero(prefix: nat, i: nat)
    ensures IdAt(prefix, i) == 0 <==> prefix == 0 && i % SUFFIX_LIMIT == 0
    ensures 1 <= i < SUFFIX_LIMIT ==> IdAt(prefix, i) != 0
    ensures IdAt(0, SUFFIX_LIMIT) == 0
  {
    if 1 <= i < SUFFIX_LIMIT {
      assert i % SUFFIX_LIMIT == i;
    }
  }
}
