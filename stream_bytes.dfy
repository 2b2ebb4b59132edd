/**
 * Byte counts kept per stream identifier: the bytes queued for
 * reassembly on each stream, and the bytes a SACK acknowledges per
 * stream. A hash map has no order, so the total is defined by picking
 * any key, and `TotalRemove` shows that every order gives the same sum.
 */
module StreamBytes {
  import opened Serial

  /** The sum of all counts in `m`. */
  ghost function Total(m: map<u16, nat>): nat
    decreases |m.Keys|
  {
    if m.Keys == {} then 0
    else
      var k :| k in m.Keys;
      m[k] + Total(m - {k})
  }

  /** Removing any one key takes exactly its count off the total. */
  lemma {:induction false} TotalRemove(m: map<u16, nat>, k: u16)
    requires k in m
    ensures Total(m) == m[k] + Total(m - {k})
    decreases |m.Keys|
  {
    var j :| j in m.Keys && Total(m) == m[j] + Total(m - {j});
    if j != k {
      var mj := m - {j};
      var mk := m - {k};
      assert k in mj && j in mk;
      TotalRemove(mj, k);
      TotalRemove(mk, j);
      assert mj - {k} == mk - {j};
    }
  }

  /** Adds `n` bytes to the count of stream `k`, starting it at `n` when absent. */
  function Credit(m: map<u16, nat>, k: u16, n: nat): (r: map<u16, nat>)
    ensures r.Keys == m.Keys + {k}
    ensures r[k] == (if k in m then m[k] else 0) + n
    ensures forall j :: j in m && j != k ==> r[j] == m[j]
  {
    if k in m then m[k := m[k] + n] else m[k := n]
  }

  /** Crediting a stream grows the total by exactly the credited bytes. */
  lemma TotalCredit(m: map<u16, nat>, k: u16, n: nat)
    ensures Total(Credit(m, k, n)) == Total(m) + n
  {
    var r := Credit(m, k, n);
    TotalRemove(r, k);
    if k in m {
      TotalRemove(m, k);
      assert r - {k} == m - {k};
    } else {
      assert r - {k} == m;
    }
  }

  /** Crediting a stream after creating it with no bytes is crediting it once. */
  lemma CreditAfterCreate(m: map<u16, nat>, k: u16, n: nat)
    ensures Credit(Credit(m, k, 0), k, n) == Credit(m, k, n)
  {
  }

  lemma TotalEmpty(m: map<u16, nat>)
    requires m == map[]
    ensures Total(m) == 0
  {
    assert m.Keys == {};
  }
}
