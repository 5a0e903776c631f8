/** The six completion slots of an XBee session. Each slot holds the
    TaskCompletionSource of the operation in flight, or nothing. A task is
    named here by a ticket; its result, once set, is kept in `results`.
    Starting an operation puts a new ticket in its slot (dropping any
    earlier one); resolving a slot sets the result of the ticket it holds
    and empties it. */
module Completion {

  datatype Slot = Query | SendProfile | Save | Reset | Disassociate | IsConnected

  datatype Completions = Completions(pending: map<Slot, nat>, results: map<nat, bool>, issued: nat)

  const NoCompletions := Completions(map[], map[], 0)

  /** Every pending ticket was issued, is unresolved and sits in one slot only;
      every result belongs to an issued ticket. */
  predicate Consistent(c: Completions)
  {
    && (forall s :: s in c.pending ==> c.pending[s] < c.issued && c.pending[s] !in c.results)
    && (forall t :: t in c.results ==> t < c.issued)
    && (forall s, s' :: s in c.pending && s' in c.pending && s != s' ==> c.pending[s] != c.pending[s'])
  }

  /** Whether the ticket has a result. */
  predicate Resolved(c: Completions, t: nat)
  {
    t in c.results
  }

  /** `slot = new TaskCompletionSource<bool>()`: the next ticket takes the slot. */
  function Issue(c: Completions, s: Slot): (d: Completions)
    ensures Consistent(c) ==> Consistent(d)
    ensures d.pending == c.pending[s := c.issued] && d.results == c.results && d.issued == c.issued + 1
  {
    Completions(c.pending[s := c.issued], c.results, c.issued + 1)
  }

  /** `if (slot != null) { slot.SetResult(v); slot = null; }` */
  function Resolve(c: Completions, s: Slot, v: bool): (d: Completions)
    ensures Consistent(c) ==> Consistent(d)
  {
    if s in c.pending then Completions(c.pending - {s}, c.results[c.pending[s] := v], c.issued)
    else c
  }

  /** d only adds results to c: no result is ever changed or withdrawn. */
  predicate Extends(c: Completions, d: Completions)
  {
    && c.issued <= d.issued
    && forall t :: t in c.results ==> t in d.results && d.results[t] == c.results[t]
  }

  lemma ExtendsTransitive(c: Completions, d: Completions, e: Completions)
    requires Extends(c, d) && Extends(d, e)
    ensures Extends(c, e)
  {
  }

  /** Resolving a pending slot sets exactly its ticket's result, to v, and
      empties that slot only; resolving an empty slot changes nothing. */
  lemma ResolveEffect(c: Completions, s: Slot, v: bool)
    requires Consistent(c)
    ensures var d := Resolve(c, s, v);
            && Extends(c, d)
            && s !in d.pending
            && (forall s' :: s' != s ==> (s' in d.pending <==> s' in c.pending))
            && (forall s' :: s' != s && s' in c.pending ==> d.pending[s'] == c.pending[s'])
            && (s in c.pending ==> d.results == c.results[c.pending[s] := v])
            && (s !in c.pending ==> d == c)
  {
  }

  /** A slot resolves at most once: once resolved it is empty, so a second
      resolution (a late reply, or the timer after a reply) changes nothing. */
  lemma ResolveAtMostOnce(c: Completions, s: Slot, v: bool, w: bool)
    ensures Resolve(Resolve(c, s, v), s, w) == Resolve(c, s, v)
  {
  }

  /** A new task in a slot orphans the task it replaces: that task is no longer
      reachable from any slot, so nothing can ever resolve it. */
  lemma IssueOrphans(c: Completions, s: Slot)
    requires Consistent(c) && s in c.pending
    ensures var t := c.pending[s];
            var d := Issue(c, s);
            && Extends(c, d)
            && !Resolved(d, t)
            && forall s' :: s' in d.pending ==> d.pending[s'] != t
  {
  }

  /** Opening a slot gives a fresh, unresolved ticket that only this slot holds. */
  lemma IssueFresh(c: Completions, s: Slot)
    requires Consistent(c)
    ensures var d := Issue(c, s);
            && Extends(c, d)
            && d.pending[s] == c.issued
            && !Resolved(d, c.issued)
            && forall s' :: s' in d.pending && s' != s ==> d.pending[s'] != c.issued
  {
  }
}
