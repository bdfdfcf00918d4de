/** Which addresses the limiter's table holds, read off the calls. */
module TableRoom {
  import opened RateLimit

  /** An address as the table can store it: at most 63 characters. */
  function Cut(ip: string): string {
    if |ip| < 64 then ip else ip[..63]
  }

  /** No call before k left an entry with the address of call k, had the table been large enough. */
  predicate NewAt(calls: seq<Call>, k: nat)
    requires k < |calls|
  {
    forall i | 0 <= i < k :: Cut(calls[i].ip) != calls[k].ip
  }

  function NewCount(calls: seq<Call>, m: nat): nat
    requires m <= |calls|
  {
    if m == 0 then 0 else NewCount(calls, m - 1) + if NewAt(calls, m - 1) then 1 else 0
  }

  /** Call i had this address, and there was still room. */
  ghost predicate Entered(calls: seq<Call>, ip: string, i: nat)
    requires i < |calls|
  {
    Cut(calls[i].ip) == ip && NewCount(calls, i) < 1024
  }

  lemma {:induction false} CountGrows(calls: seq<Call>, i: nat, m: nat)
    requires i <= m <= |calls|
    ensures NewCount(calls, i) <= NewCount(calls, m)
  {
    hide NewAt;
    if i < m {
      CountGrows(calls, i, m - 1);
    }
  }

  lemma OneEntryMore(l: Limiter, c: Call, ip: string)
    requires |l.entries| <= 1024
    ensures var r := Check(l, c).0;
      && (Find(r.entries, ip) >= 0 <==>
            Find(l.entries, ip) >= 0 || (Find(l.entries, c.ip) == -1 && |l.entries| < 1024 && Cut(c.ip) == ip))
      && |r.entries| == |l.entries| + if Find(l.entries, c.ip) == -1 && |l.entries| < 1024 then 1 else 0
  {
    var r := Check(l, c).0;
    if Find(l.entries, c.ip) >= 0 || |l.entries| >= 1024 {
      FindSame(l.entries, r.entries, ip);
    } else {
      assert r.entries[..|l.entries|] == l.entries;
    }
  }

  lemma FoundIsShort(rate: int, calls: seq<Call>, ip: string)
    requires Find(State(rate, calls).entries, ip) >= 0
    ensures |ip| < 64
  {
    hide State;
    EntriesFit(rate, calls);
  }

  lemma FoundIffNotNew(calls: seq<Call>, m: nat)
    requires m < |calls| && NewCount(calls, m) < 1024
    ensures (exists i: nat | i < m :: Entered(calls, calls[m].ip, i)) <==> !NewAt(calls, m)
  {
    hide NewCount;
    forall i: nat | i < m ensures Entered(calls, calls[m].ip, i) <==> Cut(calls[i].ip) == calls[m].ip {
      CountGrows(calls, i, m);
    }
    if !NewAt(calls, m) {
      var i :| 0 <= i < m && Cut(calls[i].ip) == calls[m].ip;
      assert Entered(calls, calls[m].ip, i);
    }
  }

  /** The table has one entry for each new address, as long as there is room, and holds just those that came in then. */
  lemma {:induction false} TableFromCalls(rate: int, calls: seq<Call>, m: nat, ip: string)
    requires m <= |calls|
    ensures |State(rate, calls[..m]).entries| == if NewCount(calls, m) < 1024 then NewCount(calls, m) else 1024
    ensures Find(State(rate, calls[..m]).entries, ip) >= 0 <==> exists i: nat | i < m :: Entered(calls, ip, i)
    decreases m
  {
    hide Check, Find, Cut, NewAt, State;
    if m == 0 {
      NoEntries(rate, ip);
      assert calls[..0] == [];
    } else {
      var n, c := m - 1, calls[m - 1];
      var l := State(rate, calls[..n]);
      TableFromCalls(rate, calls, n, ip);
      TableFromCalls(rate, calls, n, c.ip);
      assert calls[..m] == calls[..n] + [c];
      StateOneMore(rate, calls[..n], c);
      OneEntryMore(l, c, ip);
      NotBelow(l.entries, c.ip);
      if NewCount(calls, n) < 1024 {
        FoundIffNotNew(calls, n);
        if Find(l.entries, c.ip) >= 0 {
          FoundIsShort(rate, calls[..n], c.ip);
          ShortIsWhole(c.ip);
        }
      }
      SplitLast(calls, n, ip);
    }
  }

  lemma NoEntries(rate: int, ip: string)
    ensures State(rate, []).entries == [] && Find([], ip) == -1
  {
  }

  lemma NotBelow(es: seq<Entry>, ip: string)
    ensures Find(es, ip) >= -1
  {
  }

  lemma ShortIsWhole(ip: string)
    requires |ip| < 64
    ensures Cut(ip) == ip
  {
  }

  lemma SplitLast(calls: seq<Call>, n: nat, ip: string)
    requires n < |calls|
    ensures (exists i: nat | i < n + 1 :: Entered(calls, ip, i)) <==>
      (exists i: nat | i < n :: Entered(calls, ip, i)) || Entered(calls, ip, n)
  {
    hide Entered;
  }

  /**
   An address is held exactly if fewer than 1024 new addresses came before, or it came itself when fewer than 1024 had.
   Every call with an over-long address counts as a new one.
   */
  lemma HeldIff(rate: int, calls: seq<Call>, m: nat)
    requires m < |calls|
    ensures Held(rate, calls, m) <==>
      NewCount(calls, m) < 1024 || exists i: nat | i < m :: Entered(calls, calls[m].ip, i)
  {
    hide State, Find, Cut, NewCount, Entered;
    TableFromCalls(rate, calls, m, calls[m].ip);
    NotBelow(State(rate, calls[..m]).entries, calls[m].ip);
  }

  /** When the table is full, any other address passes. */
  lemma NotHeldPasses(rate: int, calls: seq<Call>, m: nat)
    requires m < |calls| && !Held(rate, calls, m)
    ensures Verdicts(rate, calls)[m]
  {
    VerdictAt(rate, calls, m);
  }
}
