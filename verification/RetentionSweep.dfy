/** One retention pass over a table of rows that are open until they expire, then closed, then erased.
    Written once and used for login attempts and for auth sessions. */
module RetentionSweep {
  import opened Common

  /** How a table's rows look to the sweep. `closedAt` is the terminal timestamp of a closed row that is
      not yet erased; `erase` builds the identifier-free row, `blank` hides its placeholder. */
  datatype Kind<!R, !P> = Kind(
    open: R -> bool,
    expiresAt: R -> int,
    closedAt: R -> Option<int>,
    expire: R -> R,
    erase: P -> R,
    blank: R -> R)

  ghost predicate Lawful<R(!new), P(!new)>(kind: Kind<R, P>) {
    && (forall r :: kind.open(r) ==> !kind.open(kind.expire(r)) && kind.closedAt(r).None?
                                     && kind.closedAt(kind.expire(r)) == Some(kind.expiresAt(r)))
    && (forall p :: !kind.open(kind.erase(p)) && kind.closedAt(kind.erase(p)).None?)
    && (forall p, q :: kind.blank(kind.erase(p)) == kind.blank(kind.erase(q)))
  }

  datatype Mode = Anonymise | Delete

  /** An unset window erases nothing; open rows are closed at expiry under every policy. */
  datatype Policy = Policy(window: Option<nat>, mode: Mode)

  /** The row after the expiry half of the pass. */
  function Closed<R, P>(kind: Kind<R, P>, row: R, now: int): R {
    if kind.open(row) && kind.expiresAt(row) <= now then kind.expire(row) else row
  }

  /** The row's terminal time lies strictly before the cutoff. */
  predicate Stale<R, P>(kind: Kind<R, P>, row: R, now: int, policy: Policy) {
    var closed := kind.closedAt(Closed(kind, row, now));
    policy.window.Some? && closed.Some? && closed.value < now - policy.window.value
  }

  function ExpiredIds<R, P>(kind: Kind<R, P>, table: map<nat, R>, now: int): set<nat> {
    set id | id in table && kind.open(table[id]) && kind.expiresAt(table[id]) <= now
  }

  function ErasedIds<R, P>(kind: Kind<R, P>, table: map<nat, R>, now: int, policy: Policy): set<nat> {
    set id | id in table && Stale(kind, table[id], now, policy)
  }

  /** What the pass leaves of a row it keeps. */
  function SweptRow<R, P>(kind: Kind<R, P>, row: R, now: int, policy: Policy, placeholder: P): R {
    if Stale(kind, row, now, policy) then kind.erase(placeholder) else Closed(kind, row, now)
  }

  function Sweep<R, P>(kind: Kind<R, P>, table: map<nat, R>, now: int, policy: Policy, placeholder: nat -> P)
    : map<nat, R>
  {
    map id | id in table && !(policy.mode.Delete? && Stale(kind, table[id], now, policy)) ::
      SweptRow(kind, table[id], now, policy, placeholder(id))
  }

  /** The table with every placeholder hidden. */
  function Blank<R, P>(kind: Kind<R, P>, table: map<nat, R>): map<nat, R> {
    map id | id in table :: kind.blank(table[id])
  }

  /** When the row closed, or will close if it is still open; None once it is erased. */
  function TerminalTime<R, P>(kind: Kind<R, P>, row: R): Option<int> {
    if kind.open(row) then Some(kind.expiresAt(row)) else kind.closedAt(row)
  }

  /** A pass erases exactly the rows whose terminal time lies strictly before the cutoff: for an open row,
      expired and erased in the one pass, its own expiry. An erased row is gone, or is its placeholder; a
      row that only expired is closed at its own expiry; every other row is left exactly as it was. */
  lemma SweepFrame<R(!new), P(!new)>(kind: Kind<R, P>, table: map<nat, R>, now: int, policy: Policy,
                                     placeholder: nat -> P, id: nat)
    requires Lawful(kind) && id in table
    ensures var after := Sweep(kind, table, now, policy, placeholder);
            var terminal := TerminalTime(kind, table[id]);
            var erased := policy.window.Some? && terminal.Some? && terminal.value < now - policy.window.value;
            && (erased <==> id in ErasedIds(kind, table, now, policy))
            && (erased && policy.mode.Delete? ==> id !in after)
            && (erased && policy.mode.Anonymise? ==> id in after && after[id] == kind.erase(placeholder(id)))
            && (!erased ==> id in after)
            && (!erased && kind.open(table[id]) && kind.expiresAt(table[id]) <= now ==>
                  !kind.open(after[id]) && kind.closedAt(after[id]) == Some(kind.expiresAt(table[id])))
            && (!erased && (kind.open(table[id]) ==> now < kind.expiresAt(table[id])) ==> after[id] == table[id])
  {
  }

  /** Repeating a pass at the same time changes nothing and counts nothing, whatever placeholders it draws. */
  lemma SweepTwice<R(!new), P(!new)>(kind: Kind<R, P>, table: map<nat, R>, now: int, policy: Policy,
                                     first: nat -> P, second: nat -> P)
    requires Lawful(kind)
    ensures var once := Sweep(kind, table, now, policy, first);
            && Sweep(kind, once, now, policy, second) == once
            && ExpiredIds(kind, once, now) == {} && ErasedIds(kind, once, now, policy) == {}
  {
  }

  /** What a later pass sees of a row an earlier pass kept. */
  lemma RowAfterSweep<R(!new), P(!new)>(kind: Kind<R, P>, row: R, t1: int, t2: int, policy: Policy, placeholder: P)
    requires Lawful(kind) && t1 <= t2
    ensures Stale(kind, row, t1, policy) ==>
              && Stale(kind, row, t2, policy)
              && Closed(kind, kind.erase(placeholder), t2) == kind.erase(placeholder)
              && !Stale(kind, kind.erase(placeholder), t2, policy)
    ensures Closed(kind, Closed(kind, row, t1), t2) == Closed(kind, row, t2)
    ensures Stale(kind, Closed(kind, row, t1), t2, policy) <==> Stale(kind, row, t2, policy)
    ensures t1 == t2 && !Stale(kind, row, t1, policy) ==> !Stale(kind, Closed(kind, row, t1), t2, policy)
  {
  }

  lemma ErasedIdsSplit<R(!new), P(!new)>(kind: Kind<R, P>, table: map<nat, R>, t1: int, t2: int, policy: Policy,
                                         first: nat -> P)
    requires Lawful(kind) && t1 <= t2
    ensures var once := Sweep(kind, table, t1, policy, first);
            && ErasedIds(kind, table, t1, policy) !! ErasedIds(kind, once, t2, policy)
            && ErasedIds(kind, table, t1, policy) + ErasedIds(kind, once, t2, policy)
               == ErasedIds(kind, table, t2, policy)
  {
    forall id | id in table { RowAfterSweep(kind, table[id], t1, t2, policy, first(id)); }
  }

  lemma ExpiredIdsSplit<R(!new), P(!new)>(kind: Kind<R, P>, table: map<nat, R>, t1: int, t2: int, policy: Policy,
                                          first: nat -> P)
    requires Lawful(kind) && t1 <= t2
    ensures var once := Sweep(kind, table, t1, policy, first);
            && ExpiredIds(kind, table, t1) !! ExpiredIds(kind, once, t2)
            && ExpiredIds(kind, table, t1) + ExpiredIds(kind, once, t2) == ExpiredIds(kind, table, t2)
  {
    forall id | id in table { RowAfterSweep(kind, table[id], t1, t2, policy, first(id)); }
  }

  lemma RowComposes<R(!new), P(!new)>(kind: Kind<R, P>, table: map<nat, R>, t1: int, t2: int, policy: Policy,
                                      first: nat -> P, second: nat -> P, direct: nat -> P, id: nat)
    requires Lawful(kind) && t1 <= t2 && id in table
    ensures var left := Sweep(kind, Sweep(kind, table, t1, policy, first), t2, policy, second);
            var right := Sweep(kind, table, t2, policy, direct);
            && (id in left <==> id in right)
            && (id in left ==> kind.blank(left[id]) == kind.blank(right[id]))
  {
    RowAfterSweep(kind, table[id], t1, t2, policy, first(id));
  }

  ghost predicate Composes<R(!new), P(!new)>(kind: Kind<R, P>, table: map<nat, R>, t1: int, t2: int, policy: Policy,
                                             first: nat -> P, second: nat -> P, direct: nat -> P)
  {
    var once := Sweep(kind, table, t1, policy, first);
    && Blank(kind, Sweep(kind, once, t2, policy, second)) == Blank(kind, Sweep(kind, table, t2, policy, direct))
    && |ErasedIds(kind, table, t1, policy)| + |ErasedIds(kind, once, t2, policy)|
       == |ErasedIds(kind, table, t2, policy)|
    && |ExpiredIds(kind, table, t1)| + |ExpiredIds(kind, once, t2)| == |ExpiredIds(kind, table, t2)|
  }

  /** Sweeping at t1 and again at t2 >= t1 is sweeping once at t2, placeholders aside, and the counts the
      two passes report add up to the counts of the single one. */
  lemma SweepComposes<R(!new), P(!new)>(kind: Kind<R, P>, table: map<nat, R>, t1: int, t2: int, policy: Policy,
                                        first: nat -> P, second: nat -> P, direct: nat -> P)
    requires Lawful(kind) && t1 <= t2
    ensures Composes(kind, table, t1, t2, policy, first, second, direct)
  {
    var once := Sweep(kind, table, t1, policy, first);
    var left, right := Sweep(kind, once, t2, policy, second), Sweep(kind, table, t2, policy, direct);
    assert Blank(kind, left) == Blank(kind, right) by {
      forall id
        ensures id in left <==> id in right
        ensures id in left ==> kind.blank(left[id]) == kind.blank(right[id])
      {
        if id in table { RowComposes(kind, table, t1, t2, policy, first, second, direct, id); }
      }
      SameBlank(kind, left, right);
    }
    CountsAdd(kind, table, t1, t2, policy, first);
  }

  lemma SameBlank<R, P>(kind: Kind<R, P>, left: map<nat, R>, right: map<nat, R>)
    requires forall id :: id in left <==> id in right
    requires forall id :: id in left ==> kind.blank(left[id]) == kind.blank(right[id])
    ensures Blank(kind, left) == Blank(kind, right)
  {
    assert left.Keys == right.Keys;
  }

  lemma CountsAdd<R(!new), P(!new)>(kind: Kind<R, P>, table: map<nat, R>, t1: int, t2: int, policy: Policy,
                                    first: nat -> P)
    requires Lawful(kind) && t1 <= t2
    ensures var once := Sweep(kind, table, t1, policy, first);
            && |ErasedIds(kind, table, t1, policy)| + |ErasedIds(kind, once, t2, policy)|
               == |ErasedIds(kind, table, t2, policy)|
            && |ExpiredIds(kind, table, t1)| + |ExpiredIds(kind, once, t2)| == |ExpiredIds(kind, table, t2)|
  {
    var once := Sweep(kind, table, t1, policy, first);
    ErasedIdsSplit(kind, table, t1, t2, policy, first);
    ExpiredIdsSplit(kind, table, t1, t2, policy, first);
    Parts(ErasedIds(kind, table, t1, policy), ErasedIds(kind, once, t2, policy), ErasedIds(kind, table, t2, policy));
    Parts(ExpiredIds(kind, table, t1), ExpiredIds(kind, once, t2), ExpiredIds(kind, table, t2));
  }

  lemma Parts(a: set<nat>, b: set<nat>, whole: set<nat>)
    requires a !! b && a + b == whole
    ensures |a| + |b| == |whole|
  {
  }
}
