/** The report writer of the migration preflight: fill a temporary file through short writes, then
    install it under its final name by a hard link that never overwrites. */
module Report {
  import opened Common

  type Bytes = seq<bv8>

  /** What a directory entry names: a file, or anything else (link, FIFO, directory). */
  datatype Node = File(content: Bytes) | OtherObject(id: int)

  type Entries = map<string, Node>

  datatype WriteResult = WriteRaises | Wrote(count: int)

  datatype Attempt = Attempt(raises: bool, effect: bool)

  /** How the system calls answer. `arrives` is an object another process puts at the final name just
      before the link, if the name is free. */
  datatype Script = Script(
    mkdirRaises: bool, mkstempRaises: bool, fchmodRaises: bool,
    writes: nat -> WriteResult,
    fsyncRaises: bool, closeRaises: bool,
    arrives: Option<Node>, linkRaises: bool,
    unlink: Attempt, cleanupUnlink: Attempt)

  datatype Outcome = Returned | Raised

  /** os.write accepts at most what it is given. */
  function Accepted(result: WriteResult, remaining: nat): int {
    match result
    case WriteRaises => 0
    case Wrote(count) => if count > remaining then remaining else count
  }

  /** The calls numbered from k on write everything that remains. */
  predicate WritesAll(writes: nat -> WriteResult, k: nat, remaining: nat)
    decreases remaining
  {
    remaining == 0
    || (Accepted(writes(k), remaining) > 0
        && WritesAll(writes, k + 1, remaining - Accepted(writes(k), remaining)))
  }

  /** The counts of the first n calls, added up; a refused call adds nothing. */
  function Total(writes: nat -> WriteResult, n: nat): nat {
    if n == 0 then 0
    else Total(writes, n - 1) + if Positive(writes(n - 1)) then writes(n - 1).count else 0
  }

  predicate Positive(result: WriteResult) {
    result.Wrote? && result.count > 0
  }

  predicate Reaches(writes: nat -> WriteResult, n: nat, size: nat) {
    Total(writes, n) >= size && forall k :: 0 <= k < n ==> Positive(writes(k))
  }

  lemma {:induction false} WritesAllFrom(writes: nat -> WriteResult, k: nat, size: nat)
    requires Total(writes, k) <= size && forall j :: 0 <= j < k ==> Positive(writes(j))
    ensures WritesAll(writes, k, size - Total(writes, k)) <==> exists n :: Reaches(writes, n, size)
    decreases size - Total(writes, k)
  {
    if Total(writes, k) == size {
      assert Reaches(writes, k, size);
    } else if !Positive(writes(k)) {
      forall n: nat ensures !Reaches(writes, n, size) {
        if n <= k { TotalGrows(writes, n, k); }
      }
    } else if Total(writes, k + 1) >= size {
      assert Reaches(writes, k + 1, size);
    } else {
      WritesAllFrom(writes, k + 1, size);
    }
  }

  lemma {:induction false} TotalGrows(writes: nat -> WriteResult, m: nat, n: nat)
    requires m <= n
    ensures Total(writes, m) <= Total(writes, n)
  {
    if m < n { TotalGrows(writes, m, n - 1); }
  }

  /** A pattern of calls writes a payload of this size exactly when some number of calls, none of them
      refused, offers that many bytes. */
  lemma WritesAllExactly(writes: nat -> WriteResult, size: nat)
    ensures WritesAll(writes, 0, size) <==> exists n :: Reaches(writes, n, size)
  {
    WritesAllFrom(writes, 0, size);
  }

  function AfterArrival(entries: Entries, path: string, arrives: Option<Node>): Entries {
    if path !in entries && arrives.Some? then entries[path := arrives.value] else entries
  }

  /** Every step before the link succeeds. */
  predicate Prepared(s: Script, payload: Bytes) {
    && !s.mkdirRaises && !s.mkstempRaises && !s.fchmodRaises
    && WritesAll(s.writes, 0, |payload|)
    && !s.fsyncRaises && !s.closeRaises
  }

  predicate Linked(entries: Entries, path: string, payload: Bytes, s: Script) {
    Prepared(s, payload) && path !in AfterArrival(entries, path, s.arrives) && !s.linkRaises
  }

  class Directory {
    var entries: Entries

    method Append(name: string, data: Bytes)
      requires name in entries && entries[name].File?
      modifies this
      ensures entries == old(entries)[name := File(old(entries[name].content) + data)]
    {
      entries := entries[name := File(entries[name].content + data)];
    }

    /** os.link: EEXIST for whatever is at the new name. */
    method Link(name: string, target: string, raises: bool) returns (ok: bool)
      requires name in entries
      modifies this
      ensures ok <==> target !in old(entries) && !raises
      ensures entries == if ok then old(entries)[target := old(entries[name])] else old(entries)
    {
      if target in entries || raises { return false; }
      entries := entries[target := entries[name]];
      ok := true;
    }

    method Unlink(name: string, attempt: Attempt) returns (ok: bool)
      modifies this
      ensures ok <==> name in old(entries) && !attempt.raises
      ensures entries == if ok || attempt.effect then old(entries) - {name} else old(entries)
    {
      ok := name in entries && !attempt.raises;
      if ok || attempt.effect { entries := entries - {name}; }
    }

    /** The short-write loop. It terminates for every pattern of counts; the file then holds the payload,
        or the prefix written before the first refused call. */
    method WriteAll(name: string, payload: Bytes, writes: nat -> WriteResult) returns (ok: bool)
      requires name in entries && entries[name] == File([])
      modifies this
      ensures ok <==> WritesAll(writes, 0, |payload|)
      ensures ok ==> entries == old(entries)[name := File(payload)]
      ensures !ok ==> exists n :: 0 <= n < |payload| && entries == old(entries)[name := File(payload[..n])]
    {
      var written, calls := 0, 0;
      while written < |payload|
        invariant 0 <= written <= |payload| && calls >= 0
        invariant entries == old(entries)[name := File(payload[..written])]
        invariant WritesAll(writes, 0, |payload|) <==> WritesAll(writes, calls, |payload| - written)
        decreases |payload| - written
      {
        var result := writes(calls);
        var count := Accepted(result, |payload| - written);
        if result.WriteRaises? || count <= 0 { return false; }
        Append(name, payload[written..written + count]);
        assert payload[..written] + payload[written..written + count] == payload[..written + count];
        written := written + count;
        calls := calls + 1;
      }
      assert payload[..written] == payload;
      ok := true;
    }

    /** The steps on the descriptor, up to its close. */
    method Fill(name: string, payload: Bytes, s: Script) returns (ok: bool)
      requires name in entries && entries[name] == File([])
      requires !s.mkdirRaises && !s.mkstempRaises
      modifies this
      ensures ok <==> Prepared(s, payload)
      ensures name in entries && entries[name].File? && entries == old(entries)[name := entries[name]]
      ensures ok ==> entries[name] == File(payload)
    {
      ok := !s.fchmodRaises;
      if ok { ok := WriteAll(name, payload, s.writes); }
      ok := ok && !s.fsyncRaises && !s.closeRaises;
    }

    /** The link, after whatever another process does, and the removal of the temporary name. */
    method Install(path: string, temporary: string, s: Script) returns (ok: bool)
      requires temporary in entries && temporary != path
      modifies this
      ensures var free := path !in old(entries) && s.arrives.None? && !s.linkRaises;
              && (ok <==> free && !s.unlink.raises)
              && entries - {temporary} ==
                 (var others := AfterArrival(old(entries) - {temporary}, path, s.arrives);
                  if free then others[path := old(entries[temporary])] else others)
              && (ok ==> temporary !in entries)
    {
      if path !in entries && s.arrives.Some? { entries := entries[path := s.arrives.value]; }
      ok := Link(temporary, path, s.linkRaises);
      if ok { ok := Unlink(temporary, s.unlink); }
    }

    /** mkstemp's contract is that its name is a new one. On every exit path the directory is the final one,
        up to a leftover temporary file, which needs a failed unlink. */
    method WriteReport(path: string, temporary: string, payload: Bytes, s: Script) returns (outcome: Outcome)
      requires temporary !in entries && temporary != path
      modifies this
      ensures outcome.Returned? <==> Linked(old(entries), path, payload, s) && !s.unlink.raises
      ensures entries - {temporary} == Final(old(entries), path, payload, s)
      ensures temporary in entries ==> outcome.Raised? && !s.cleanupUnlink.effect && s.cleanupUnlink.raises
    {
      if s.mkdirRaises || s.mkstempRaises { return Raised; }
      entries := entries[temporary := File([])];
      var ok := Fill(temporary, payload, s);
      assert entries - {temporary} == old(entries);
      if ok {
        ok := Install(path, temporary, s);
        assert entries - {temporary} == Final(old(entries), path, payload, s);
      }
      if ok { return Returned; }
      var removed := Unlink(temporary, s.cleanupUnlink);
      outcome := Raised;
    }
  }

  /** The directory without the temporary file. */
  function Final(entries: Entries, path: string, payload: Bytes, s: Script): Entries {
    if Linked(entries, path, payload, s) then entries[path := File(payload)]
    else if Prepared(s, payload) then AfterArrival(entries, path, s.arrives)
    else entries
  }

  /** An existing target is never touched, nor any other name; the target holds exactly the payload when the
      link was made; otherwise it is whatever it was, or what another process put there. */
  lemma TargetIsPayloadOrUntouched(entries: Entries, path: string, payload: Bytes, s: Script)
    ensures var last := Final(entries, path, payload, s);
            && (path in entries ==> last == entries)
            && last - {path} == entries - {path}
            && (Linked(entries, path, payload, s) ==> path !in entries && path in last && last[path] == File(payload))
            && (!Linked(entries, path, payload, s) ==>
                  last == entries || (s.arrives.Some? && path !in entries && last == entries[path := s.arrives.value]))
  {
  }
}
