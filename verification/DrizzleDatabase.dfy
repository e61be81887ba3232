/** The bookkeeping of the database class that the steps of the protocol stand for, on its handle objects. */
module DrizzleDatabase {
  import opened Options
  import P = DrizzleProtocol

  /** The handle of a request transaction: an abort controller, the settled promise, and the status flag. */
  class RequestHandle {
    var statusActive: bool
    var aborted: bool
    var settled: bool

    constructor ()
      ensures statusActive && !aborted && !settled
    {
      statusActive, aborted, settled := true, false, false;
    }
  }

  class TransactionScope {
    var settled: bool
    var deferred: set<RequestHandle>

    constructor ()
      ensures !settled && deferred == {}
    {
      settled, deferred := false, {};
    }
  }

  ghost function Counting(handles: set<RequestHandle>): set<RequestHandle>
    reads handles
  {
    set h | h in handles && h.statusActive
  }

  lemma OneLess(a: set<RequestHandle>, h: RequestHandle)
    requires h in a
    ensures |a - {h}| == |a| - 1
  {
  }

  lemma OneFewer(counted: set<RequestHandle>, todo: set<RequestHandle>, h: RequestHandle)
    requires h in todo
    ensures |counted * (todo - {h})| == |counted * todo| - if h in counted then 1 else 0
  {
    if h in counted {
      assert counted * (todo - {h}) == counted * todo - {h};
    } else {
      assert counted * (todo - {h}) == counted * todo;
    }
  }

  class Database {
    var activeRequestTransactions: set<RequestHandle>
    var activeTransactionScopes: set<TransactionScope>
    var statusCount: int
    var lifecycleState: P.Lifecycle

    /** Every handle ever handed out. */
    ghost var issued: set<RequestHandle>

    constructor ()
      ensures Valid() && issued == {} && lifecycleState == P.Ready
      ensures activeRequestTransactions == {} && activeTransactionScopes == {}
    {
      activeRequestTransactions, activeTransactionScopes, statusCount := {}, {}, 0;
      lifecycleState := P.Ready;
      issued := {};
      new;
      assert Counting(issued) == {};
    }

    /** The counter is exact, tracked handles are the unsettled ones, and only tracked ones count. */
    ghost predicate Valid()
      reads this, issued
    {
      && activeRequestTransactions <= issued
      && statusCount == |Counting(issued)|
      && (forall h <- issued :: h in activeRequestTransactions <==> !h.settled)
      && (forall h <- issued :: h.statusActive ==> !h.settled)
    }

    method TrackActiveRequestTransaction() returns (h: RequestHandle)
      requires Valid()
      modifies this
      ensures Valid() && fresh(h) && h.statusActive && !h.settled && !h.aborted
      ensures issued == old(issued) + {h} && activeRequestTransactions == old(activeRequestTransactions) + {h}
      ensures statusCount == old(statusCount) + 1
      ensures lifecycleState == old(lifecycleState) && activeTransactionScopes == old(activeTransactionScopes)
    {
      h := new RequestHandle();
      activeRequestTransactions := activeRequestTransactions + {h};
      statusCount := statusCount + 1;
      issued := issued + {h};
      assert Counting(issued) == old(Counting(issued)) + {h};
    }

    method MarkRequestTransactionInactiveForStatus(h: RequestHandle)
      requires Valid() && h in issued
      modifies this`statusCount, h`statusActive
      ensures Valid() && !h.statusActive
      ensures statusCount == old(statusCount) - if old(h.statusActive) then 1 else 0
    {
      if h.statusActive {
        OneLess(Counting(issued), h);
        statusCount := statusCount - 1;
        h.statusActive := false;
        assert Counting(issued) == old(Counting(issued)) - {h};
      }
    }

    method UntrackActiveRequestTransaction(h: RequestHandle)
      requires Valid() && h in issued
      modifies this`statusCount, this`activeRequestTransactions, h`statusActive, h`settled
      ensures Valid() && !h.statusActive && h.settled
      ensures statusCount == old(statusCount) - if old(h.statusActive) then 1 else 0
      ensures activeRequestTransactions == old(activeRequestTransactions) - {h}
    {
      MarkRequestTransactionInactiveForStatus(h);
      activeRequestTransactions := activeRequestTransactions - {h};
      h.settled := true;
      assert Counting(issued) == old(Counting(issued)) - {h};
    }

    /** A plain transaction is refused once shutdown has begun. */
    method BeginPlain() returns (scope: Option<TransactionScope>)
      requires Valid()
      modifies this`activeTransactionScopes
      ensures Valid() && (scope.Some? <==> lifecycleState.Ready?)
      ensures scope.Some? ==> fresh(scope.value) && !scope.value.settled && scope.value.deferred == {}
                              && activeTransactionScopes == old(activeTransactionScopes) + {scope.value}
      ensures scope.None? ==> activeTransactionScopes == old(activeTransactionScopes)
    {
      if lifecycleState != P.Ready {
        return None;
      }
      var active := new TransactionScope();
      activeTransactionScopes := activeTransactionScopes + {active};
      scope := Some(active);
    }

    /** A request transaction inside a plain one is deferred to it. */
    method BeginNested(scope: TransactionScope) returns (h: Option<RequestHandle>)
      requires Valid() && scope.deferred <= issued
      modifies this, scope`deferred
      ensures Valid() && (h.Some? <==> old(lifecycleState).Ready?) && lifecycleState == old(lifecycleState)
      ensures activeTransactionScopes == old(activeTransactionScopes) && scope.deferred <= issued
      ensures h.Some? ==> fresh(h.value) && h.value.statusActive && !h.value.settled && !h.value.aborted
                          && activeRequestTransactions == old(activeRequestTransactions) + {h.value}
                          && issued == old(issued) + {h.value} && statusCount == old(statusCount) + 1
                          && scope.deferred == old(scope.deferred) + {h.value}
      ensures h.None? ==> activeRequestTransactions == old(activeRequestTransactions) && issued == old(issued)
                          && statusCount == old(statusCount) && scope.deferred == old(scope.deferred)
    {
      if lifecycleState != P.Ready {
        return None;
      }
      var handle := TrackActiveRequestTransaction();
      scope.deferred := scope.deferred + {handle};
      h := Some(handle);
    }

    /** Releases one of the handles still to do; those of `counted` counted when the loop began. */
    method ReleaseOne(h: RequestHandle, ghost deferred: set<RequestHandle>, ghost todo: set<RequestHandle>,
                      ghost counted: set<RequestHandle>)
      requires Valid() && todo <= deferred <= issued && h in todo
      requires forall k <- deferred - todo :: k.settled && !k.statusActive
      requires forall k <- todo :: k.statusActive == (k in counted)
      modifies this`statusCount, this`activeRequestTransactions, h`statusActive, h`settled
      ensures Valid() && activeRequestTransactions == old(activeRequestTransactions) - {h}
      ensures forall k <- deferred - (todo - {h}) :: k.settled && !k.statusActive
      ensures forall k <- todo - {h} :: k.statusActive == (k in counted)
      ensures statusCount - |counted * (todo - {h})| == old(statusCount) - |counted * todo|
    {
      UntrackActiveRequestTransaction(h);
      OneFewer(counted, todo, h);
    }

    /** The loop over the handles deferred to a scope: each is released once. */
    method Release(deferred: set<RequestHandle>)
      requires Valid() && deferred <= issued
      modifies this`statusCount, this`activeRequestTransactions, deferred`statusActive, deferred`settled
      ensures Valid() && activeRequestTransactions == old(activeRequestTransactions) - deferred
      ensures forall h <- deferred :: h.settled && !h.statusActive
      ensures statusCount == old(statusCount) - |old(Counting(deferred))|
    {
      var todo := deferred;
      ghost var counted := Counting(deferred);
      assert counted * todo == counted;
      while todo != {}
        invariant Valid() && todo <= deferred
        invariant activeRequestTransactions == old(activeRequestTransactions) - (deferred - todo)
        invariant forall h <- deferred - todo :: h.settled && !h.statusActive
        invariant forall h <- todo :: h.statusActive == (h in counted)
        invariant statusCount == old(statusCount) - |counted| + |counted * todo|
        decreases |todo|
      {
        var h :| h in todo;
        ReleaseOne(h, deferred, todo, counted);
        todo := todo - {h};
      }
      assert counted * todo == {};
    }

    /** Settling a plain transaction releases every handle deferred to it, and lowers the counter exactly. */
    method EndPlain(scope: TransactionScope)
      requires Valid() && scope.deferred <= issued
      modifies this`statusCount, this`activeRequestTransactions, this`activeTransactionScopes, scope`settled,
        scope.deferred`statusActive, scope.deferred`settled
      ensures Valid() && scope.settled && activeTransactionScopes == old(activeTransactionScopes) - {scope}
      ensures activeRequestTransactions == old(activeRequestTransactions) - scope.deferred
      ensures forall h <- scope.deferred :: h.settled && !h.statusActive
      ensures statusCount == old(statusCount) - |old(Counting(scope.deferred))|
    {
      Release(scope.deferred);
      activeTransactionScopes := activeTransactionScopes - {scope};
      scope.settled := true;
    }

    /** From here on nothing can start; what is tracked now is aborted and waited for. */
    method BeginShutdown() returns (waiting: set<RequestHandle>, scopes: set<TransactionScope>)
      requires Valid()
      modifies this`lifecycleState, activeRequestTransactions
      ensures Valid() && lifecycleState == P.ShuttingDown
      ensures waiting == activeRequestTransactions && scopes == activeTransactionScopes
      ensures forall h <- activeRequestTransactions :: h.aborted && h.settled == old(h.settled)
                                                       && h.statusActive == old(h.statusActive)
    {
      lifecycleState := P.ShuttingDown;
      waiting, scopes := activeRequestTransactions, activeTransactionScopes;
      var todo := waiting;
      while todo != {}
        invariant Valid() && todo <= activeRequestTransactions && lifecycleState == P.ShuttingDown
        invariant forall h <- activeRequestTransactions ::
                    h.settled == old(h.settled) && h.statusActive == old(h.statusActive)
        invariant forall h <- activeRequestTransactions :: h !in todo ==> h.aborted
        decreases |todo|
      {
        var h :| h in todo;
        h.aborted := true;
        assert Counting(issued) == old(Counting(issued));
        todo := todo - {h};
      }
    }
  }
}
