/**
 The tables of the democracy store as one map from (type, id) to rows, with the constraints
 the schema declares: primary keys, foreign keys that cascade on delete, and uniqueness.
 */
module Schema {
  import opened Wrappers

  const UUID_LIMIT: int := 0x1_0000_0000_0000_0000_0000_0000_0000_0000

  type Uuid = i: int | 0 <= i < UUID_LIMIT

  /** The types of replicated objects, in the order of their numbers. */
  datatype ObjectType = IssueType | IssueVoteType | SolutionType | SolutionVoteType | CampaignType | PledgeType {
    function Number(): (n: nat) {
      match this
      case IssueType => 0
      case IssueVoteType => 1
      case SolutionType => 2
      case SolutionVoteType => 3
      case CampaignType => 4
      case PledgeType => 5
    }
  }

  datatype Key = Key(objectType: ObjectType, id: Uuid)

  /** What a uniqueness constraint compares. */
  datatype UniqueKey =
    | OneVote(target: Key, voter: Uuid)
    | OneCampaign(solution: Uuid)
    | OnePledge(campaign: Uuid, txid: string, vout: nat)

  datatype Row =
    | Issue(id: Uuid, title: string, creator: Uuid, description: string, createdAt: int)
    | IssueVote(id: Uuid, issue: Uuid, voter: Uuid, createdAt: int)
    | Solution(id: Uuid, issue: Uuid, title: string, creator: Uuid, description: string, createdAt: int)
    | SolutionVote(id: Uuid, solution: Uuid, voter: Uuid, createdAt: int)
    | Campaign(id: Uuid, solution: Uuid, solutionHash: string, payoutAddress: Option<string>, askingPrice: nat,
               deadline: Option<nat>, createdAt: int)
    | Pledge(id: Uuid, campaign: Uuid, pledger: Uuid, txid: string, vout: nat, value: nat, psbt: string, createdAt: int)
  {
    function Type(): ObjectType {
      match this
      case Issue(_, _, _, _, _) => IssueType
      case IssueVote(_, _, _, _) => IssueVoteType
      case Solution(_, _, _, _, _, _) => SolutionType
      case SolutionVote(_, _, _, _) => SolutionVoteType
      case Campaign(_, _, _, _, _, _, _) => CampaignType
      case Pledge(_, _, _, _, _, _, _, _) => PledgeType
    }

    function Ref(): Key { Key(Type(), id) }

    predicate IsVote() { IssueVote? || SolutionVote? }

    /** The row this one refers to. */
    function Parent(): Option<Key> {
      match this
      case Issue(_, _, _, _, _) => None
      case IssueVote(_, issue, _, _) => Some(Key(IssueType, issue))
      case Solution(_, issue, _, _, _, _) => Some(Key(IssueType, issue))
      case SolutionVote(_, solution, _, _) => Some(Key(SolutionType, solution))
      case Campaign(_, solution, _, _, _, _, _) => Some(Key(SolutionType, solution))
      case Pledge(_, campaign, _, _, _, _, _, _) => Some(Key(CampaignType, campaign))
    }

    function Unique(): Option<UniqueKey> {
      match this
      case IssueVote(_, issue, voter, _) => Some(OneVote(Key(IssueType, issue), voter))
      case SolutionVote(_, solution, voter, _) => Some(OneVote(Key(SolutionType, solution), voter))
      case Campaign(_, solution, _, _, _, _, _) => Some(OneCampaign(solution))
      case Pledge(_, campaign, _, txid, vout, _, _, _) => Some(OnePledge(campaign, txid, vout))
      case _ => None
    }
  }

  type Tables = map<Key, Row>

  // --- integrity -------------------------------------------------------------------------

  ghost predicate WellKeyed(t: Tables) { forall k :: k in t ==> t[k].Ref() == k }

  /** The parent, if any, is there. */
  predicate Resolves(t: Tables, r: Row) { r.Parent().Some? ==> r.Parent().value in t }

  /** Some other row holds the same unique key. */
  predicate Clashes(t: Tables, r: Row) {
    r.Unique().Some? && exists k :: k in t && k != r.Ref() && t[k].Unique() == r.Unique()
  }

  /** Every row is under its key, refers to existing rows, and shares no unique key. */
  ghost predicate Integrity(t: Tables) {
    && WellKeyed(t)
    && (forall k :: k in t ==> Resolves(t, t[k]))
    && (forall k :: k in t ==> !Clashes(t, t[k]))
  }

  /** References point from later types to earlier ones. */
  lemma ParentsComeFirst(r: Row)
    ensures r.Parent().Some? ==> r.Parent().value.objectType.Number() < r.Type().Number()
  {}

  // --- inserting -------------------------------------------------------------------------

  datatype Violation = PrimaryKey | NotUnique | ForeignKey

  function Insert(t: Tables, r: Row): Result<Tables, Violation> {
    if r.Ref() in t then Failure(PrimaryKey)
    else if Clashes(t, r) then Failure(NotUnique)
    else if !Resolves(t, r) then Failure(ForeignKey)
    else Success(t[r.Ref() := r])
  }

  /** Rows of one table. */
  predicate SameTable(r: Row, q: Row) {
    match r
    case Issue(_, _, _, _, _) => q.Issue?
    case IssueVote(_, _, _, _) => q.IssueVote?
    case Solution(_, _, _, _, _, _) => q.Solution?
    case SolutionVote(_, _, _, _) => q.SolutionVote?
    case Campaign(_, _, _, _, _, _, _) => q.Campaign?
    case Pledge(_, _, _, _, _, _, _, _) => q.Pledge?
  }

  /** Rows of one table of which it holds one: a voter's vote, a solution's campaign, an outpoint's pledge. */
  predicate SameClaim(r: Row, q: Row) {
    match r
    case IssueVote(_, issue, voter, _) => q.IssueVote? && q.issue == issue && q.voter == voter
    case SolutionVote(_, solution, voter, _) => q.SolutionVote? && q.solution == solution && q.voter == voter
    case Campaign(_, solution, _, _, _, _, _) => q.Campaign? && q.solution == solution
    case Pledge(_, campaign, _, txid, vout, _, _, _) =>
      q.Pledge? && q.campaign == campaign && q.txid == txid && q.vout == vout
    case _ => false
  }

  /** `q` is the row that `r` refers to. */
  predicate RefersTo(r: Row, q: Row) {
    match r
    case Issue(_, _, _, _, _) => false
    case IssueVote(_, issue, _, _) => q.Issue? && q.id == issue
    case Solution(_, issue, _, _, _, _) => q.Issue? && q.id == issue
    case SolutionVote(_, solution, _, _) => q.Solution? && q.id == solution
    case Campaign(_, solution, _, _, _, _, _) => q.Solution? && q.id == solution
    case Pledge(_, campaign, _, _, _, _, _, _) => q.Campaign? && q.id == campaign
  }

  ghost predicate Grounded(t: Tables, r: Row) { r.Issue? || exists k :: k in t && RefersTo(r, t[k]) }

  lemma RulesMean(t: Tables, r: Row)
    requires WellKeyed(t)
    ensures r.Ref() in t <==> exists k :: k in t && SameTable(r, t[k]) && t[k].id == r.id
    ensures Resolves(t, r) <==> Grounded(t, r)
    ensures Clashes(t, r) <==> exists k :: k in t && k != r.Ref() && SameClaim(r, t[k])
  {
    if r.Ref() in t {
      assert SameTable(r, t[r.Ref()]);
    }
    if r.Parent().Some? && r.Parent().value in t {
      assert RefersTo(r, t[r.Parent().value]);
    }
    if Clashes(t, r) {
      var k :| k in t && k != r.Ref() && t[k].Unique() == r.Unique();
      assert SameClaim(r, t[k]);
    }
    if k :| k in t && k != r.Ref() && SameClaim(r, t[k]) {
      assert t[k].Unique() == r.Unique();
    }
  }

  /**
   A row goes in exactly when its id is free in its table, the row it refers to is there, and
   no row of the table makes the same claim.
   */
  lemma InsertedExactly(t: Tables, r: Row)
    requires Integrity(t)
    ensures Insert(t, r).Success? <==>
      && (forall k :: k in t ==> !(SameTable(r, t[k]) && t[k].id == r.id))
      && Grounded(t, r)
      && (forall k :: k in t ==> !SameClaim(r, t[k]))
    ensures Insert(t, r).Success? ==> Insert(t, r).value == t[r.Ref() := r]
  {
    hide Resolves, Clashes, SameTable, SameClaim, Grounded, Row.Ref;
    RulesMean(t, r);
  }

  datatype VoteRecordResult = Created | AlreadyVoted

  /** A second vote of one voter on one target is no error but a result. */
  function RecordVote(t: Tables, vote: Row): Result<(Tables, VoteRecordResult), Violation> {
    match Insert(t, vote)
    case Success(t') => Success((t', Created))
    case Failure(NotUnique) => Success((t, AlreadyVoted))
    case Failure(v) => Failure(v)
  }

  lemma InsertKeepsIntegrity(t: Tables, r: Row)
    requires Integrity(t) && Insert(t, r).Success?
    ensures Integrity(Insert(t, r).value)
  {
    var t' := Insert(t, r).value;
    forall k | k in t' ensures Resolves(t', t'[k]) && !Clashes(t', t'[k]) {
      assert k in t ==> Resolves(t, t[k]) && !Clashes(t, t[k]);
    }
  }

  // --- deleting --------------------------------------------------------------------------

  /** Rows that refer to a row that is gone. */
  function Dangling(t: Tables): set<Key> { set k | k in t && !Resolves(t, t[k]) }

  /** Deletes dangling rows until none is left, as ON DELETE CASCADE demands. */
  function Cascade(t: Tables): Tables
    decreases |t|
  {
    if Dangling(t) == {} then t
    else
      SmallerWithout(t, Dangling(t));
      Cascade(t - Dangling(t))
  }

  lemma SmallerWithout(t: Tables, gone: set<Key>)
    requires gone <= t.Keys && gone != {}
    ensures |t - gone| < |t|
  {
    assert (t - gone).Keys == t.Keys - gone;
    assert |t.Keys - gone| == |t.Keys| - |gone|;
  }

  function Delete(t: Tables, k: Key): Tables { Cascade(t - {k}) }

  /** `k` is `root` or refers, directly or not, to it. */
  ghost predicate Descends(t: Tables, k: Key, root: Key)
    requires WellKeyed(t) && k in t
    decreases k.objectType.Number()
  {
    k == root
    || (t[k].Parent().Some? && t[k].Parent().value in t && Descends(t, t[k].Parent().value, root))
  }

  /** Deleting a row removes it and exactly its transitive descendants. */
  lemma DeleteRemovesDescendants(t: Tables, root: Key)
    requires Integrity(t)
    ensures Delete(t, root) == t - set k | k in t && Descends(t, k, root)
    ensures Integrity(Delete(t, root))
  {
    var gone := set k | k in t && Descends(t, k, root);
    CascadeKeepsOthers(t, t - {root}, root);
    var t' := Delete(t, root);
    forall k | k in t' ensures k !in gone {
      SurvivorsDoNotDescend(t, t', k, root);
    }
    assert t'.Keys == t.Keys - gone;
    assert t' == t - gone;
    SubsetKeepsUnique(t, t');
  }

  ghost predicate PartOf(t': Tables, t: Tables) { forall k :: k in t' ==> k in t && t'[k] == t[k] }

  /** Only descendants of the deleted row are ever dangling. */
  lemma {:induction false} CascadeKeepsOthers(t: Tables, u: Tables, root: Key)
    requires Integrity(t) && PartOf(u, t) && root !in u
    requires forall k :: k in t && !Descends(t, k, root) ==> k in u
    ensures var c := Cascade(u);
      PartOf(c, t) && root !in c && Dangling(c) == {} && forall k :: k in t && !Descends(t, k, root) ==> k in c
    decreases |u|
  {
    if Dangling(u) != {} {
      SmallerWithout(u, Dangling(u));
      forall k | k in t && !Descends(t, k, root) ensures k in u - Dangling(u) {
        assert Resolves(t, t[k]);
        assert Resolves(u, u[k]);
      }
      CascadeKeepsOthers(t, u - Dangling(u), root);
    }
  }

  lemma {:induction false} SurvivorsDoNotDescend(t: Tables, t': Tables, k: Key, root: Key)
    requires Integrity(t) && PartOf(t', t) && root !in t' && Dangling(t') == {} && k in t'
    ensures !Descends(t, k, root)
    decreases k.objectType.Number()
  {
    assert k !in Dangling(t') && Resolves(t', t'[k]);
    if t[k].Parent().Some? {
      ParentsComeFirst(t[k]);
      SurvivorsDoNotDescend(t, t', t[k].Parent().value, root);
    }
  }

  lemma SubsetKeepsUnique(t: Tables, t': Tables)
    requires Integrity(t) && PartOf(t', t) && Dangling(t') == {}
    ensures Integrity(t')
  {
    forall k | k in t' ensures Resolves(t', t'[k]) && !Clashes(t', t'[k]) {
      assert k !in Dangling(t');
      assert !Clashes(t, t[k]);
    }
  }

  // --- replacing -------------------------------------------------------------------------

  predicate HasChildren(t: Tables, k: Key) { exists c :: c in t && t[c].Parent() == Some(k) }

  /** Overwrites a row, possibly under a new id; references to the old id stand in the way of that. */
  function Replace(t: Tables, oldKey: Key, r: Row): Result<(Tables, bool), Violation>
    requires r.Type() == oldKey.objectType
  {
    if oldKey !in t then Success((t, false))
    else if r.Ref() != oldKey && r.Ref() in t then Failure(PrimaryKey)
    else if !Resolves(t, r) || (r.Ref() != oldKey && HasChildren(t, oldKey)) then Failure(ForeignKey)
    else Success(((t - {oldKey})[r.Ref() := r], true))
  }

  lemma ReplaceKeepsIntegrity(t: Tables, oldKey: Key, r: Row)
    requires Integrity(t) && (r.Issue? || r.Solution?) && r.Type() == oldKey.objectType
    requires Replace(t, oldKey, r).Success?
    ensures Integrity(Replace(t, oldKey, r).value.0)
  {
    var t' := Replace(t, oldKey, r).value.0;
    if oldKey in t {
      ParentsComeFirst(r);
      forall k | k in t' ensures Resolves(t', t'[k]) && !Clashes(t', t'[k]) {
        if k != r.Ref() {
          assert Resolves(t, t[k]) && !Clashes(t, t[k]);
        }
      }
    }
  }

  // --- votes -----------------------------------------------------------------------------

  function VotesOn(t: Tables, target: Key): set<Key> {
    set k | k in t && t[k].IsVote() && t[k].Parent() == Some(target)
  }

  /** The vote count reported with an issue or a solution: the number of vote rows joined to it. */
  function VoteCount(t: Tables, target: Key): nat { |VotesOn(t, target)| }

  function VoterOf(t: Tables, k: Key): Uuid { if k in t && t[k].IsVote() then t[k].voter else 0 }

  ghost function VotersIn(t: Tables, votes: set<Key>): set<Uuid> { set k | k in votes :: VoterOf(t, k) }

  ghost function Voters(t: Tables, target: Key): set<Uuid> { VotersIn(t, VotesOn(t, target)) }

  /** Every voter is counted once. */
  lemma VoteCountIsVoters(t: Tables, target: Key)
    requires Integrity(t)
    ensures VoteCount(t, target) == |Voters(t, target)|
  {
    hide Integrity, VotersIn, VoterOf;
    forall j, k | j in VotesOn(t, target) && k in VotesOn(t, target) && VoterOf(t, j) == VoterOf(t, k) ensures j == k {
      OneVotePerVoter(t, target, j, k);
    }
    VotersOfSome(t, VotesOn(t, target));
  }

  lemma OneVotePerVoter(t: Tables, target: Key, j: Key, k: Key)
    requires Integrity(t) && j in VotesOn(t, target) && k in VotesOn(t, target) && VoterOf(t, j) == VoterOf(t, k)
    ensures j == k
  {
    assert t[j].Unique() == t[k].Unique();
    assert !Clashes(t, t[j]);
  }

  lemma {:induction false} VotersOfSome(t: Tables, votes: set<Key>)
    requires forall j, k :: j in votes && k in votes && VoterOf(t, j) == VoterOf(t, k) ==> j == k
    ensures |VotersIn(t, votes)| == |votes|
  {
    hide VoterOf;
    if v :| v in votes {
      var rest := VotersIn(t, votes - {v});
      VotersOfSome(t, votes - {v});
      assert VotersIn(t, votes) == rest + {VoterOf(t, v)};
      assert VoterOf(t, v) !in rest;
    }
  }
}
