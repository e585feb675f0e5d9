/** An inventory delete event: three deletions, each its own statement and each retried on
    database errors, over tables in which deleting an upload deletes the reports linked to it. */
module InventoryDelete {
  import opened Tables
  import opened Reconcile

  datatype State = State(reports: Reports, uploads: Uploads, hostAcks: set<HostAck>)

  datatype Stage = UploadStage | ReportStage | AckStage

  /** How one attempt at a statement ends. A database error may have lost the connection
      before or after the statement took effect. */
  datatype Attempt = Succeeds | DbError(applied: bool) | OtherError

  datatype Message = Message(
    eventType: Option<string>, id: Option<HostId>, org: Option<OrgId>,
    requestId: Option<string>, timestamp: Option<string>)

  datatype Result = Done | Ignored | BadEvent | StageFailed(stage: Stage)

  // ---------- the statements ----------

  function CurrentUploads(s: State, h: HostId, o: OrgId): set<UploadKey> {
    set k | k in s.uploads && k.host == h && k.org == o && s.uploads[k].current
  }

  /** Delete current uploads; the reports linked to them go with them, whoever they belong to. */
  function DropUploads(s: State, h: HostId, o: OrgId): State {
    var gone := CurrentUploads(s, h, o);
    s.(uploads := s.uploads - gone,
       reports := map k | k in s.reports && s.reports[k].upload !in gone :: s.reports[k])
  }

  function DropReports(s: State, h: HostId, o: OrgId): State {
    s.(reports := map k | k in s.reports && !(k.host == h && k.org == o) :: s.reports[k])
  }

  function DropAcks(s: State, h: HostId, o: OrgId): State {
    s.(hostAcks := set a | a in s.hostAcks && !(a.host == h && a.org == o))
  }

  function Drop(s: State, stage: Stage, h: HostId, o: OrgId): State {
    match stage
    case UploadStage => DropUploads(s, h, o)
    case ReportStage => DropReports(s, h, o)
    case AckStage => DropAcks(s, h, o)
  }

  function Deleted(s: State, h: HostId, o: OrgId): State {
    DropAcks(DropReports(DropUploads(s, h, o), h, o), h, o)
  }

  /** The tables when a stage is about to be tried. */
  function Reached(s: State, stage: Stage, h: HostId, o: OrgId): State {
    match stage
    case UploadStage => s
    case ReportStage => DropUploads(s, h, o)
    case AckStage => DropReports(DropUploads(s, h, o), h, o)
  }

  predicate Complete(msg: Message) {
    msg.id.Some? && msg.org.Some? && msg.requestId.Some? && msg.timestamp.Some?
  }

  // ---------- the retry loop ----------

  /** The stage gets through: some attempt within the limit succeeds, after database errors only. */
  predicate GetsThrough(script: seq<Attempt>, retries: nat) {
    exists i :: && 0 <= i < |script| && i < retries && script[i].Succeeds?
                && forall j :: 0 <= j < i ==> script[j].DbError?
  }

  class InventoryTables {
    var reports: Reports
    var uploads: Uploads
    var hostAcks: set<HostAck>

    function Contents(): State
      reads this
    {
      State(reports, uploads, hostAcks)
    }

    constructor (s: State)
      ensures Contents() == s
    {
      reports, uploads, hostAcks := s.reports, s.uploads, s.hostAcks;
    }

    method Execute(stage: Stage, h: HostId, o: OrgId)
      modifies this
      ensures Contents() == Drop(old(Contents()), stage, h, o)
    {
      match stage
      case UploadStage =>
        var gone := CurrentUploads(Contents(), h, o);
        uploads := uploads - gone;
        reports := map k | k in reports && reports[k].upload !in gone :: reports[k];
      case ReportStage =>
        reports := map k | k in reports && !(k.host == h && k.org == o) :: reports[k];
      case AckStage =>
        hostAcks := set a | a in hostAcks && !(a.host == h && a.org == o);
    }

    /** Try one stage at most retries times; the script lists how each attempt would end.
        Any attempt that took effect, successful or not, leaves the stage done. */
    method RunStage(stage: Stage, h: HostId, o: OrgId, retries: nat, script: seq<Attempt>)
      returns (ok: bool, attempts: nat)
      requires retries <= |script|
      modifies this
      ensures ok <==> GetsThrough(script, retries)
      ensures attempts <= retries
      ensures ok ==> Contents() == Drop(old(Contents()), stage, h, o)
      ensures Contents() == old(Contents()) || Contents() == Drop(old(Contents()), stage, h, o)
    {
      attempts := 0;
      while attempts < retries
        invariant attempts <= retries
        invariant forall j :: 0 <= j < attempts ==> script[j].DbError?
        invariant Contents() == old(Contents()) || Contents() == Drop(old(Contents()), stage, h, o)
      {
        var attempt := script[attempts];
        attempts := attempts + 1;
        DropTwice(old(Contents()), stage, h, o);
        match attempt
        case Succeeds =>
          Execute(stage, h, o);
          return true, attempts;
        case DbError(applied) =>
          if applied { Execute(stage, h, o); }
        case OtherError =>
          return false, attempts;
      }
      return false, attempts;
    }

    /** Handle one inventory event. A delete that gets through every stage leaves exactly the
        deleted state; a failed one leaves a state from which the deleted state is unchanged. */
    method HandleInventoryEvent(msg: Message, retries: nat, scripts: map<Stage, seq<Attempt>>) returns (r: Result)
      requires forall stage: Stage :: stage in scripts && retries <= |scripts[stage]|
      modifies this
      ensures r == Ignored <==> msg.eventType !in {None, Some(""), Some("delete")}
      ensures r == BadEvent <==>
                || msg.eventType == None || msg.eventType == Some("")
                || (msg.eventType == Some("delete")
                    && (msg.id == None || msg.org == None || msg.requestId == None || msg.timestamp == None))
      ensures r in {BadEvent, Ignored} ==> Contents() == old(Contents())
      ensures r == Done || r.StageFailed? ==> msg.id.Some? && msg.org.Some?
      ensures r == Done ==> forall stage: Stage :: GetsThrough(scripts[stage], retries)
      ensures r == Done ==> Contents() == Deleted(old(Contents()), msg.id.value, msg.org.value)
      ensures r.StageFailed? ==> !GetsThrough(scripts[r.stage], retries)
      ensures r.StageFailed? ==>
                Deleted(Contents(), msg.id.value, msg.org.value) ==
                    Deleted(old(Contents()), msg.id.value, msg.org.value)
      ensures r.StageFailed? ==>
                var reached := Reached(old(Contents()), r.stage, msg.id.value, msg.org.value);
                Contents() == reached || Contents() == Drop(reached, r.stage, msg.id.value, msg.org.value)
    {
      if msg.eventType.GetOr("") == "" {
        return BadEvent;
      }
      if msg.eventType != Some("delete") {
        return Ignored;
      }
      if !Complete(msg) {
        return BadEvent;
      }
      var h, o := msg.id.value, msg.org.value;
      DeletedAbsorbs(Contents(), UploadStage, h, o);
      var ok, attempts := RunStage(UploadStage, h, o, retries, scripts[UploadStage]);
      if !ok {
        return StageFailed(UploadStage);
      }
      DeletedAbsorbs(Contents(), ReportStage, h, o);
      ok, attempts := RunStage(ReportStage, h, o, retries, scripts[ReportStage]);
      if !ok {
        return StageFailed(ReportStage);
      }
      DeletedAbsorbs(Contents(), AckStage, h, o);
      ok, attempts := RunStage(AckStage, h, o, retries, scripts[AckStage]);
      if !ok {
        return StageFailed(AckStage);
      }
      forall stage: Stage ensures GetsThrough(scripts[stage], retries) {
        match stage
        case UploadStage =>
        case ReportStage =>
        case AckStage =>
      }
      return Done;
    }
  }

  // ---------- what the deletion means ----------

  lemma DropTwice(s: State, stage: Stage, h: HostId, o: OrgId)
    ensures Drop(Drop(s, stage, h, o), stage, h, o) == Drop(s, stage, h, o)
  {
    var once := Drop(s, stage, h, o);
    assert CurrentUploads(DropUploads(s, h, o), h, o) == {};
    assert Drop(once, stage, h, o).reports == once.reports;
  }

  /** Doing a stage beforehand does not change where the whole deletion ends, so a failed
      delivery followed by a redelivery ends as one clean delivery would. */
  lemma DeletedAbsorbs(s: State, stage: Stage, h: HostId, o: OrgId)
    ensures Deleted(Drop(s, stage, h, o), h, o) == Deleted(s, h, o)
  {
    var before, after := Deleted(s, h, o), Deleted(Drop(s, stage, h, o), h, o);
    assert stage.UploadStage? ==> CurrentUploads(DropUploads(s, h, o), h, o) == {};
    assert !stage.UploadStage? ==> CurrentUploads(Drop(s, stage, h, o), h, o) == CurrentUploads(s, h, o);
    assert after.reports == before.reports;
    assert after.uploads == before.uploads;
    assert after.hostAcks == before.hostAcks;
  }

  ghost predicate Belongs(h': HostId, o': OrgId, h: HostId, o: OrgId) {
    h' == h && o' == o
  }

  /** Every report is linked to a stored upload of its own host and org. */
  ghost predicate OwnLinks(reports: Reports, uploads: Uploads) {
    forall k :: k in reports ==>
      reports[k].upload in uploads && reports[k].upload.host == k.host && reports[k].upload.org == k.org
  }

  /** Nothing of the host and org is left but its uploads that were not current, and no other
      upload or acknowledgement is touched. */
  lemma DeletedExactly(s: State, h: HostId, o: OrgId)
    ensures forall k :: k in Deleted(s, h, o).reports ==> !Belongs(k.host, k.org, h, o)
    ensures forall k :: k in s.uploads && Belongs(k.host, k.org, h, o) && s.uploads[k].current ==>
                          k !in Deleted(s, h, o).uploads
    ensures forall k: UploadKey :: !(k in s.uploads && Belongs(k.host, k.org, h, o) && s.uploads[k].current) ==>
                          SameAt(Deleted(s, h, o).uploads, s.uploads, k)
    ensures forall a :: a in Deleted(s, h, o).hostAcks <==> a in s.hostAcks && !Belongs(a.host, a.org, h, o)
  {
  }

  /** Other hosts' reports survive if and only if none of them is linked to a current upload
      of the deleted host and org. */
  lemma OthersSurviveExactly(s: State, h: HostId, o: OrgId)
    ensures (forall k: ReportKey :: !Belongs(k.host, k.org, h, o) ==> SameAt(Deleted(s, h, o).reports, s.reports, k))
            <==> (forall k :: k in s.reports && !Belongs(k.host, k.org, h, o) ==>
                                s.reports[k].upload !in CurrentUploads(s, h, o))
  {
    var d := Deleted(s, h, o);
    forall k: ReportKey | !Belongs(k.host, k.org, h, o)
      ensures SameAt(d.reports, s.reports, k) <==> (k in s.reports ==> s.reports[k].upload !in CurrentUploads(s, h, o))
    {
    }
  }

  /** With own links the deletion touches no other host's reports, and links stay own. */
  lemma DeletionIsLocal(s: State, h: HostId, o: OrgId)
    requires OwnLinks(s.reports, s.uploads)
    ensures forall k: ReportKey :: !Belongs(k.host, k.org, h, o) ==> SameAt(Deleted(s, h, o).reports, s.reports, k)
    ensures OwnLinks(Deleted(s, h, o).reports, Deleted(s, h, o).uploads)
  {
  }

  /** Each single stage keeps links own, so a half-done deletion does too. */
  lemma StageKeepsLinks(s: State, stage: Stage, h: HostId, o: OrgId)
    requires OwnLinks(s.reports, s.uploads)
    ensures OwnLinks(Drop(s, stage, h, o).reports, Drop(s, stage, h, o).uploads)
  {
  }

  /** Uploads keep links own. */
  lemma UploadKeepsLinks(ctx: Context, reports: Reports, uploads: Uploads, req: Request)
    requires OwnLinks(reports, uploads)
    ensures OwnLinks(PostReports(ctx, reports, req), UpsertUpload(uploads, req))
  {
    forall k | k in PostReports(ctx, reports, req)
      ensures var link := PostReports(ctx, reports, req)[k].upload;
              link in UpsertUpload(uploads, req) && link.host == k.host && link.org == k.org
    {
      assert k in reports || Mine(req, k) by {
        if k in MatchedKeys(ctx, req) {
          var rule :| rule in MatchedRules(ctx, req) && KeyOf(req, rule) == k;
        }
      }
    }
  }

  // ---------- over whole runs ----------

  /** An upload that commits, or one deletion statement that takes effect, perhaps as part of
      a delivery that then fails. */
  datatype Op = Uploaded(req: Request) | Statement(stage: Stage, h: HostId, o: OrgId)

  ghost function After(ctx: Context, s: State, ops: seq<Op>): State {
    if ops == [] then s
    else
      var before := After(ctx, s, ops[..|ops| - 1]);
      match ops[|ops| - 1]
      case Uploaded(req) =>
        before.(reports := PostReports(ctx, before.reports, req), uploads := UpsertUpload(before.uploads, req))
      case Statement(stage, h, o) => Drop(before, stage, h, o)
  }

  /** The three statements of a delivery, one after the other, are the whole deletion, and an upload
      is its own change of the two tables. */
  lemma RunDeletes(ctx: Context, s: State, req: Request, h: HostId, o: OrgId)
    ensures After(ctx, s, [Statement(UploadStage, h, o), Statement(ReportStage, h, o), Statement(AckStage, h, o)]) ==
            Deleted(s, h, o)
    ensures After(ctx, s, [Uploaded(req)]) ==
            State(PostReports(ctx, s.reports, req), UpsertUpload(s.uploads, req), s.hostAcks)
  {
    var a, b, c := Statement(UploadStage, h, o), Statement(ReportStage, h, o), Statement(AckStage, h, o);
    assert [a, b, c][..2] == [a, b] && [a, b][..1] == [a] && [a][..0] == [] && [Uploaded(req)][..0] == [];
    assert After(ctx, s, [a]) == DropUploads(s, h, o);
    assert After(ctx, s, [a, b]) == DropReports(DropUploads(s, h, o), h, o);
  }

  /** From tables with own links, empty ones for instance, whatever uploads and half-done
      deletions have happened, a deletion touches no other host's or org's reports. */
  lemma {:induction false} DeletionsStayLocal(ctx: Context, s: State, ops: seq<Op>, h: HostId, o: OrgId)
    requires OwnLinks(s.reports, s.uploads)
    ensures var now := After(ctx, s, ops);
            && OwnLinks(now.reports, now.uploads)
            && forall k: ReportKey :: !Belongs(k.host, k.org, h, o) ==>
                 SameAt(Deleted(now, h, o).reports, now.reports, k)
  {
    if ops != [] {
      DeletionsStayLocal(ctx, s, ops[..|ops| - 1], h, o);
      var before := After(ctx, s, ops[..|ops| - 1]);
      match ops[|ops| - 1]
      case Uploaded(req) => UploadKeepsLinks(ctx, before.reports, before.uploads, req);
      case Statement(stage, h', o') => StageKeepsLinks(before, stage, h', o');
    }
    DeletionIsLocal(After(ctx, s, ops), h, o);
  }

  /** Without own links the cascade reaches another host: one report of host "b" linked to
      the current upload of host "a" is lost when "a" is deleted. */
  lemma ForeignLinkIsLost() returns (s: State, k: ReportKey)
    ensures k in s.reports && !Belongs(k.host, k.org, "a", "o")
    ensures k !in Deleted(s, "a", "o").reports
  {
    var u := UploadKey("a", "o", "s");
    k := ReportKey("o", "r", "b");
    s := State(map[k := Report(None, u, "", None)], map[u := Upload(None, 0, false, "t", true)], {});
    assert u in CurrentUploads(s, "a", "o");
  }
}
