/** The store as an object whose operations change its tables in place, and what every run keeps. */
module Repository {
  import opened Wrappers
  import opened Schema

  class DemocracyRepository {
    var rows: Tables

    constructor ()
      ensures rows == map[] && Integrity(rows)
    {
      rows := map[];
    }

    /** Stores a new row; on a violated constraint nothing changes. */
    method Add(r: Row) returns (violation: Option<Violation>)
      requires Integrity(rows)
      modifies this
      ensures Integrity(rows)
      ensures rows == if violation.None? then old(rows)[r.Ref() := r] else old(rows)
      ensures violation.None? <==> r.Ref() !in old(rows) && !Clashes(old(rows), r) && Resolves(old(rows), r)
      ensures violation == Some(PrimaryKey) <==> r.Ref() in old(rows)
      ensures violation == Some(NotUnique) <==> r.Ref() !in old(rows) && Clashes(old(rows), r)
    {
      match Insert(rows, r) {
        case Success(t) =>
          InsertKeepsIntegrity(rows, r);
          rows := t;
          return None;
        case Failure(v) => return Some(v);
      }
    }

    /** Stores a vote; a second one of the same voter for the same target is reported, not raised. */
    method RecordVote(vote: Row) returns (result: Result<VoteRecordResult, Violation>)
      requires Integrity(rows) && vote.IsVote()
      modifies this
      ensures Integrity(rows)
      ensures rows == if result == Success(Created) then old(rows)[vote.Ref() := vote] else old(rows)
      ensures result == Success(Created) <==>
        vote.Ref() !in old(rows) && !Clashes(old(rows), vote) && Resolves(old(rows), vote)
      ensures result == Success(AlreadyVoted) <==> vote.Ref() !in old(rows) && Clashes(old(rows), vote)
      ensures result == Failure(PrimaryKey) <==> vote.Ref() in old(rows)
      ensures match Schema.RecordVote(old(rows), vote)
        case Success(p) => result == Success(p.1) && rows == p.0
        case Failure(v) => result == Failure(v) && rows == old(rows)
    {
      var violation := Add(vote);
      match violation {
        case None => return Success(Created);
        case Some(NotUnique) => return Success(AlreadyVoted);
        case Some(v) => return Failure(v);
      }
    }

    /** Overwrites an issue or a solution, if it is there. */
    method ReplaceRow(key: Key, r: Row) returns (result: Result<bool, Violation>)
      requires Integrity(rows) && (r.Issue? || r.Solution?) && r.Type() == key.objectType
      modifies this
      ensures Integrity(rows)
      ensures result.Success? ==> result.value == (key in old(rows))
      ensures rows == if result == Success(true) then (old(rows) - {key})[r.Ref() := r] else old(rows)
      ensures result.Failure? <==> (
        key in old(rows)
        && ((r.Ref() != key && (r.Ref() in old(rows) || HasChildren(old(rows), key))) || !Resolves(old(rows), r)))
    {
      var replaced := Replace(rows, key, r);
      if replaced.Success? {
        ReplaceKeepsIntegrity(rows, key, r);
        rows := replaced.value.0;
        return Success(replaced.value.1);
      }
      return Failure(replaced.error);
    }

    /** Deletes a row and, through the foreign keys, everything that descends from it. */
    method DeleteRow(key: Key) returns (deleted: bool)
      requires Integrity(rows)
      modifies this
      ensures Integrity(rows) && deleted == (key in old(rows))
      ensures rows == old(rows) - set k | k in old(rows) && Descends(old(rows), k, key)
    {
      deleted := key in rows;
      DeleteRemovesDescendants(rows, key);
      rows := Delete(rows, key);
    }

    /** A row with the number of its voters. */
    method WithVotes(key: Key) returns (r: Option<(Row, nat)>)
      requires Integrity(rows)
      ensures r == if key in rows then Some((rows[key], |Voters(rows, key)|)) else None
    {
      if key !in rows {
        return None;
      }
      VoteCountIsVoters(rows, key);
      return Some((rows[key], VoteCount(rows, key)));
    }
  }

  // --- runs ------------------------------------------------------------------------------

  datatype Op = Adding(row: Row) | Recording(vote: Row) | Replacing(key: Key, row: Row) | Deleting(key: Key) {
    predicate Wellformed() {
      match this
      case Replacing(key, row) => (row.Issue? || row.Solution?) && row.Type() == key.objectType
      case Recording(vote) => vote.IsVote()
      case _ => true
    }
  }

  /** The tables after an operation; a failing one leaves them as they are. */
  function Do(t: Tables, op: Op): Tables
    requires op.Wellformed()
  {
    match op
    case Adding(r) => if Insert(t, r).Success? then Insert(t, r).value else t
    case Recording(v) => if RecordVote(t, v).Success? then RecordVote(t, v).value.0 else t
    case Replacing(key, r) => if Replace(t, key, r).Success? then Replace(t, key, r).value.0 else t
    case Deleting(key) => Delete(t, key)
  }

  function Run(ops: seq<Op>): Tables
    requires forall i :: 0 <= i < |ops| ==> ops[i].Wellformed()
  {
    if ops == [] then map[] else Do(Run(ops[..|ops| - 1]), ops[|ops| - 1])
  }

  lemma StepKeepsIntegrity(t: Tables, op: Op)
    requires Integrity(t) && op.Wellformed()
    ensures Integrity(Do(t, op))
  {
    hide Integrity;
    match op
    case Adding(r) => if Insert(t, r).Success? { InsertKeepsIntegrity(t, r); }
    case Recording(v) => if Insert(t, v).Success? { InsertKeepsIntegrity(t, v); }
    case Replacing(key, r) => if Replace(t, key, r).Success? { ReplaceKeepsIntegrity(t, key, r); }
    case Deleting(key) => DeleteRemovesDescendants(t, key);
  }

  lemma {:induction false} RunKeepsIntegrity(ops: seq<Op>)
    requires forall i :: 0 <= i < |ops| ==> ops[i].Wellformed()
    ensures Integrity(Run(ops))
  {
    if ops != [] {
      RunKeepsIntegrity(ops[..|ops| - 1]);
      StepKeepsIntegrity(Run(ops[..|ops| - 1]), ops[|ops| - 1]);
    }
  }

  lemma SoundRow(t: Tables, k: Key)
    requires Integrity(t) && k in t
    ensures Grounded(t, t[k])
  {
    RulesMean(t, t[k]);
  }

  lemma SoundPair(t: Tables, j: Key, k: Key)
    requires Integrity(t) && j in t && k in t
    ensures SameTable(t[j], t[k]) && t[j].id == t[k].id ==> j == k
    ensures SameClaim(t[j], t[k]) ==> j == k
  {
    RulesMean(t, t[j]);
    assert !Clashes(t, t[j]) && t[j].Ref() == j && t[k].Ref() == k;
  }

  /**
   After any run of operations: references resolve, a voter has at most one vote on a target,
   a solution at most one campaign, a campaign at most one pledge of an outpoint, and the
   vote counts shown are numbers of voters.
   */
  lemma EveryRunIsSound(ops: seq<Op>)
    requires forall i :: 0 <= i < |ops| ==> ops[i].Wellformed()
    ensures var t := Run(ops);
      && (forall k :: k in t ==> Grounded(t, t[k]))
      && (forall j, k :: j in t && k in t && SameTable(t[j], t[k]) && t[j].id == t[k].id ==> j == k)
      && (forall j, k :: j in t && k in t && SameClaim(t[j], t[k]) ==> j == k)
      && (forall k :: k in t ==> VoteCount(t, k) == |Voters(t, k)|)
  {
    hide Run, VoteCount, Voters, Integrity, Grounded, SameTable, SameClaim;
    RunKeepsIntegrity(ops);
    var t := Run(ops);
    forall k | k in t ensures Grounded(t, t[k]) && VoteCount(t, k) == |Voters(t, k)| {
      SoundRow(t, k);
      VoteCountIsVoters(t, k);
    }
    forall j, k | j in t && k in t ensures SameTable(t[j], t[k]) && t[j].id == t[k].id ==> j == k
      ensures SameClaim(t[j], t[k]) ==> j == k
    {
      SoundPair(t, j, k);
    }
  }
}
