/**
 * The identity-conflict renaming scheme of the detection handler
 * (src/lib/server/websocket.js:73-78): candidates `<id>-conflict-1`,
 * `<id>-conflict-2`, ... are tried in order and the first one absent from the
 * registry is taken.
 */
module Conflict {
  import Decimal

  type ClientId = string

  const Infix: string := "-conflict-"

  /** The `k`-th rename candidate for `id`; it always extends `id`, so it is never `id`. */
  function ConflictId(id: ClientId, k: nat): (c: ClientId)
    ensures |c| > |id| + |Infix| && c[..|id|] == id
  {
    id + Infix + Decimal.FromNat(k)
  }

  lemma ConflictIdInjective(id: ClientId, j: nat, k: nat)
    requires ConflictId(id, j) == ConflictId(id, k)
    ensures j == k
  {
    var p := id + Infix;
    assert ConflictId(id, j)[|p|..] == Decimal.FromNat(j);
    assert ConflictId(id, k)[|p|..] == Decimal.FromNat(k);
    Decimal.FromNatInjective(j, k);
  }

  /** The candidates tried before the `k`-th one. */
  ghost function CandidatesBelow(id: ClientId, k: nat): set<ClientId> {
    set j | 1 <= j < k :: ConflictId(id, j)
  }

  lemma CandidatesGrow(id: ClientId, k: nat)
    requires k >= 1
    ensures ConflictId(id, k) !in CandidatesBelow(id, k)
    ensures CandidatesBelow(id, k + 1) == CandidatesBelow(id, k) + {ConflictId(id, k)}
  {
    if ConflictId(id, k) in CandidatesBelow(id, k) {
      var j :| 1 <= j < k && ConflictId(id, j) == ConflictId(id, k);
      ConflictIdInjective(id, j, k);
    }
  }

  /** True when `k` is the least suffix `>= 1` whose candidate is not in `taken`. */
  ghost predicate LeastFree(id: ClientId, taken: set<ClientId>, k: nat) {
    && k >= 1
    && ConflictId(id, k) !in taken
    && forall j :: 1 <= j < k ==> ConflictId(id, j) in taken
  }

  /** The search continued from suffix `k`, every earlier candidate being taken. */
  function SearchFrom(id: ClientId, taken: set<ClientId>, k: nat): (r: nat)
    requires k >= 1
    requires forall j :: 1 <= j < k ==> ConflictId(id, j) in taken
    ensures r >= k && LeastFree(id, taken, r)
    decreases taken - CandidatesBelow(id, k)
  {
    if ConflictId(id, k) !in taken then k
    else
      CandidatesGrow(id, k);
      SearchFrom(id, taken, k + 1)
  }

  /** The suffix the source's loop settles on: the least free one. */
  function LeastFreeSuffix(id: ClientId, taken: set<ClientId>): (k: nat)
    ensures LeastFree(id, taken, k)
  {
    SearchFrom(id, taken, 1)
  }

  /** "Least free" pins down one suffix. */
  lemma LeastFreeUnique(id: ClientId, taken: set<ClientId>, k: nat, m: nat)
    requires LeastFree(id, taken, k) && LeastFree(id, taken, m)
    ensures k == m
  {
  }

  /**
   * The detection handler's loop that moves to the next suffix while the
   * candidate is already a key: returns the suffix and the identity it
   * settles on.
   */
  method ResolveConflict(id: ClientId, taken: set<ClientId>) returns (suffix: nat, newId: ClientId)
    ensures suffix >= 1 && newId == ConflictId(id, suffix)
    ensures newId !in taken && newId != id
    ensures forall j :: 1 <= j < suffix ==> ConflictId(id, j) in taken
    ensures suffix == LeastFreeSuffix(id, taken)
  {
    suffix := 1;
    newId := ConflictId(id, suffix);
    while newId in taken
      invariant suffix >= 1 && newId == ConflictId(id, suffix)
      invariant forall j :: 1 <= j < suffix ==> ConflictId(id, j) in taken
      decreases taken - CandidatesBelow(id, suffix)
    {
      CandidatesGrow(id, suffix);
      suffix := suffix + 1;
      newId := ConflictId(id, suffix);
    }
    LeastFreeUnique(id, taken, suffix, LeastFreeSuffix(id, taken));
  }
}
