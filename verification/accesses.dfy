/** The discipline that makes references safe: a session stores an object before it refers to it. */
module Accesses {
  import opened Digests

  /** What a session does to the store, as far as references are concerned. */
  datatype Access = Stored(id: Digest) | Referred(ids: set<Digest>)

  function StoredIn(accesses: seq<Access>): set<Digest> {
    set i | 0 <= i < |accesses| && accesses[i].Stored? :: accesses[i].id
  }

  function ReferredIn(accesses: seq<Access>): set<Digest> {
    set i, id | 0 <= i < |accesses| && accesses[i].Referred? && id in accesses[i].ids :: id
  }

  /** Every object is stored before anything refers to it. */
  ghost predicate StoredFirst(accesses: seq<Access>) {
    forall i :: 0 <= i < |accesses| && accesses[i].Referred? ==> accesses[i].ids <= StoredIn(accesses[..i])
  }

  lemma {:induction false} NothingStored()
    ensures StoredIn([]) == {} && ReferredIn([]) == {} && StoredFirst([])
  {
  }

  lemma {:induction false} AccessLast(accesses: seq<Access>, access: Access)
    ensures StoredIn(accesses + [access]) == StoredIn(accesses) + if access.Stored? then {access.id} else {}
    ensures ReferredIn(accesses + [access]) == ReferredIn(accesses) + if access.Referred? then access.ids else {}
    ensures StoredFirst(accesses + [access]) <==>
      StoredFirst(accesses) && (access.Referred? ==> access.ids <= StoredIn(accesses))
  {
    var more := accesses + [access];
    assert more[|accesses|] == access && more[..|accesses|] == accesses;
    forall i | 0 <= i < |accesses| ensures more[i] == accesses[i] && more[..i] == accesses[..i] {}
    if access.Referred? {
      forall id | id in access.ids ensures id in ReferredIn(more) { assert id in more[|accesses|].ids; }
    }
  }
}
