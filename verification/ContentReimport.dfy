/** Importing the same content again. A rule may have several entries, one for each system
    type it has a resolution for. */
module ContentReimport {
  import opened Tables
  import opened ContentRules
  import opened ContentImport

  // ---------- what entries of one rule may differ in ----------

  /** What an entry says about the summary; an empty one gives way to the generic text. */
  function SummaryOf(e: Entry): Option<string> {
    if EmptySummary(e) then e.generic else e.summary
  }

  predicate FieldsAgree(refs: Refs, a: Entry, b: Entry) {
    && (a.description.Some? && b.description.Some? ==> a.description == b.description)
    && (a.reboot.Some? && b.reboot.Some? ==> a.reboot == b.reboot)
    && (SummaryOf(a).Some? && SummaryOf(b).Some? ==> SummaryOf(a) == SummaryOf(b))
    && a.generic.GetOr("") == b.generic.GetOr("") && a.reason.GetOr("") == b.reason.GetOr("")
    && a.moreInfo.GetOr("") == b.moreInfo.GetOr("") && a.nodeId.GetOr("") == b.nodeId.GetOr("")
    && (a.publishDate.None? <==> b.publishDate.None?)
    && ActiveAfter(refs, a) == ActiveAfter(refs, b)
    && a.category == b.category && ImpactName(a) == ImpactName(b) && a.likelihood.GetOr(0) == b.likelihood.GetOr(0)
  }

  /** Complete playbooks of the one are named by the other, and with the same version where
      they are complete in both. */
  predicate PlaybooksAgree(a: seq<PlaybookContent>, b: seq<PlaybookContent>) {
    && (forall i :: 0 <= i < |a| && a[i].complete ==> a[i].kind in Kinds(b))
    && (forall j :: 0 <= j < |b| && b[j].complete ==> b[j].kind in Kinds(a))
    && (forall i, j :: 0 <= i < |a| && 0 <= j < |b| && a[i].complete && b[j].complete && a[i].kind == b[j].kind ==>
          a[i].version == b[j].version)
  }

  predicate HasResolution(e: Entry) {
    e.resolution.Some? && e.resolutionRisk.Some?
  }

  /** Entries for different system types always agree here. */
  predicate ResolutionsAgree(a: Entry, b: Entry) {
    HasResolution(a) && HasResolution(b) && a.systemType == b.systemType ==>
      a.resolution == b.resolution && a.resolutionRisk == b.resolutionRisk && PlaybooksAgree(a.playbooks, b.playbooks)
  }

  predicate RestAgrees(refs: Refs, a: Entry, b: Entry) {
    PathwayOf(refs, a) == PathwayOf(refs, b) && TagSet(a.tags) == TagSet(b.tags) && ResolutionsAgree(a, b)
  }

  /** Two accepted entries of the content for one rule. */
  predicate Siblings(refs: Refs, a: Entry, b: Entry) {
    Accepted(refs, a) && Accepted(refs, b) && a.ruleId == b.ruleId
  }

  /** The only accepted entry of its rule. */
  ghost predicate Alone(refs: Refs, content: seq<Entry>, i: nat)
    requires i < |content|
  {
    Accepted(refs, content[i]) && forall j :: 0 <= j < |content| && j != i ==> !Siblings(refs, content[i], content[j])
  }

  /** A rule created from this entry alone, whose empty summary the next import fills. */
  ghost predicate Unripe(refs: Refs, st: State, content: seq<Entry>, i: nat)
    requires i < |content|
  {
    Alone(refs, content, i) && content[i].ruleId !in st.rules && EmptySummary(content[i])
  }

  /** Importing the content a second time counts no rule as added or updated. */
  ghost predicate FieldsRepeatable(refs: Refs, st: State, content: seq<Entry>) {
    && (forall i, j :: 0 <= i < j < |content| && Siblings(refs, content[i], content[j]) ==>
          FieldsAgree(refs, content[i], content[j]))
    && (forall i :: 0 <= i < |content| && Accepted(refs, content[i]) ==> content[i].ruleId != "")
    && (forall i :: 0 <= i < |content| ==> !Unripe(refs, st, content, i))
  }

  ghost predicate Repeatable(refs: Refs, st: State, content: seq<Entry>) {
    && FieldsRepeatable(refs, st, content)
    && (forall i, j :: 0 <= i < j < |content| && Siblings(refs, content[i], content[j]) ==>
          RestAgrees(refs, content[i], content[j]))
  }

  ghost predicate DistinctPlaybooks(refs: Refs, content: seq<Entry>) {
    forall i :: 0 <= i < |content| && Accepted(refs, content[i]) ==> DistinctKinds(content[i].playbooks)
  }

  /** Entries that differ only in the system type and what they resolve it with agree. */
  lemma OneEntryPerSystemType(refs: Refs, e: Entry, systemType: string, resolution: Option<string>,
      playbooks: seq<PlaybookContent>)
    requires systemType != e.systemType
    ensures var other := e.(systemType := systemType, resolution := resolution, playbooks := playbooks);
            FieldsAgree(refs, e, other) && RestAgrees(refs, e, other)
  {
  }

  // ---------- settled entries ----------

  ghost predicate FieldsSettled(refs: Refs, st: State, e: Entry) {
    Accepted(refs, e) ==>
      && FieldsResolvable(refs, e) && e.ruleId in st.rules
      && UpdatedFields(refs, e, st.rules[e.ruleId].fields) == st.rules[e.ruleId].fields
  }

  ghost predicate RestSettled(refs: Refs, orgs: set<OrgId>, st: State, e: Entry) {
    Accepted(refs, e) ==>
      && Resolvable(refs, e) && e.ruleId in st.rules
      && var rule := st.rules[e.ruleId];
         && rule.ruleset == RulesetOf(refs.rulesets, e.pythonModule).value
         && rule.pathway == PathwayOf(refs, e) && rule.tags == TagSet(e.tags)
         && ResolutionsAfter(e, rule.resolutions) == rule.resolutions
         && (Repeats(e.tags, AUTOACK_TAG) ==> forall o :: o in orgs ==> AckKey(e.ruleId, o) in st.acks)
  }

  /** Importing the entry again would change nothing and count its rule as the same. */
  ghost predicate Settled(refs: Refs, orgs: set<OrgId>, st: State, e: Entry) {
    FieldsSettled(refs, st, e) && RestSettled(refs, orgs, st, e)
  }

  /** An entry leaves every other rule and its acknowledgements alone. */
  lemma OthersLeft(refs: Refs, orgs: set<OrgId>, st: State, e: Entry, r: RuleId)
    requires !Raises(refs, st, e) && (Accepted(refs, e) ==> e.ruleId != r)
    ensures SameAt(EntryAfter(refs, orgs, st, e).rules, st.rules, r)
    ensures forall o :: SameAt(EntryAfter(refs, orgs, st, e).acks, st.acks, AckKey(r, o))
  {
    if Accepted(refs, e) {
      var tags := if e.ruleId in st.rules then st.rules[e.ruleId].tags else {};
      AcksSurvive(st.acks, e.ruleId, orgs, tags, e.tags);
    }
  }

  lemma {:induction false} RuleUntouched(refs: Refs, orgs: set<OrgId>, st: State, content: seq<Entry>, r: RuleId)
    requires EntriesAfter(refs, orgs, st, content).Some?
    requires forall i :: 0 <= i < |content| && Accepted(refs, content[i]) ==> content[i].ruleId != r
    ensures SameAt(EntriesAfter(refs, orgs, st, content).value.0.rules, st.rules, r)
  {
    if content != [] {
      var before := content[..|content| - 1];
      RuleUntouched(refs, orgs, st, before, r);
      OthersLeft(refs, orgs, EntriesAfter(refs, orgs, st, before).value.0, content[|content| - 1], r);
    }
  }

  // ---------- fields ----------

  /** The fields are settled for the entry, or just created from its empty summary. */
  ghost predicate NearlySettled(refs: Refs, f: Fields, e: Entry)
    requires FieldsResolvable(refs, e)
  {
    UpdatedFields(refs, e, f) == f || (EmptySummary(e) && f == CreatedFields(refs, e))
  }

  lemma SiblingKeepsFields(refs: Refs, f: Fields, e: Entry, other: Entry)
    requires FieldsResolvable(refs, e) && FieldsResolvable(refs, other) && FieldsAgree(refs, e, other)
    requires NearlySettled(refs, f, e)
    ensures UpdatedFields(refs, e, UpdatedFields(refs, other, f)) == UpdatedFields(refs, other, f)
  {
  }

  /** Two entries settled on the same fields agree. */
  lemma SettledFieldsAgree(refs: Refs, f: Fields, a: Entry, b: Entry)
    requires FieldsResolvable(refs, a) && FieldsResolvable(refs, b)
    requires UpdatedFields(refs, a, f) == f && UpdatedFields(refs, b, f) == f
    ensures FieldsAgree(refs, a, b)
  {
  }

  /** After the entries are imported, every accepted entry's fields are settled, but for a rule
      just created from an empty summary by its only entry. */
  lemma {:induction false} AllFieldsSettle(refs: Refs, orgs: set<OrgId>, st: State, content: seq<Entry>)
    requires EntriesAfter(refs, orgs, st, content).Some?
    requires forall i, j :: 0 <= i < j < |content| && Siblings(refs, content[i], content[j]) ==>
               FieldsAgree(refs, content[i], content[j])
    ensures forall i :: 0 <= i < |content| ==>
              FieldsImported(refs, st, content, EntriesAfter(refs, orgs, st, content).value.0, i)
  {
    if content != [] {
      var n, before := |content| - 1, content[..|content| - 1];
      AllFieldsSettle(refs, orgs, st, before);
      var mid := EntriesAfter(refs, orgs, st, before).value.0;
      forall i | 0 <= i < |content|
        ensures FieldsImported(refs, st, content, EntryAfter(refs, orgs, mid, content[n]), i)
      {
        if i < n {
          assert FieldsImported(refs, st, before, mid, i);
          FieldsStayImported(refs, orgs, st, content, mid, i);
        } else {
          LastFieldsImported(refs, orgs, st, content, before, mid);
        }
      }
    }
  }

  ghost predicate FieldsImported(refs: Refs, st: State, content: seq<Entry>, now: State, i: nat)
    requires i < |content|
  {
    var e := content[i];
    Accepted(refs, e) ==>
      && FieldsResolvable(refs, e) && e.ruleId in now.rules
      && NearlySettled(refs, now.rules[e.ruleId].fields, e)
      && (FieldsSettled(refs, now, e) || Unripe(refs, st, content, i))
  }

  lemma FieldsStayImported(refs: Refs, orgs: set<OrgId>, st: State, content: seq<Entry>, mid: State, i: nat)
    requires i < |content| - 1 && FieldsImported(refs, st, content[..|content| - 1], mid, i)
    requires !Raises(refs, mid, content[|content| - 1])
    requires Siblings(refs, content[i], content[|content| - 1]) ==>
               FieldsAgree(refs, content[i], content[|content| - 1])
    ensures FieldsImported(refs, st, content, EntryAfter(refs, orgs, mid, content[|content| - 1]), i)
  {
    var before, e, last := content[..|content| - 1], content[i], content[|content| - 1];
    assert before[i] == e;
    if Siblings(refs, e, last) {
      SiblingKeepsFields(refs, mid.rules[e.ruleId].fields, e, last);
    } else if Accepted(refs, e) {
      OthersLeft(refs, orgs, mid, last, e.ruleId);
      if Unripe(refs, st, before, i) {
        forall j | 0 <= j < |content| && j != i ensures !Siblings(refs, e, content[j]) {
          assert j < |before| ==> before[j] == content[j];
        }
      }
    }
  }

  lemma LastFieldsImported(
    refs: Refs, orgs: set<OrgId>, st: State, content: seq<Entry>, before: seq<Entry>, mid: State)
    requires content != [] && before == content[..|content| - 1]
    requires EntriesAfter(refs, orgs, st, before).Some? && mid == EntriesAfter(refs, orgs, st, before).value.0
    requires !Raises(refs, mid, content[|content| - 1])
    requires forall i :: 0 <= i < |before| ==> FieldsImported(refs, st, before, mid, i)
    ensures FieldsImported(refs, st, content, EntryAfter(refs, orgs, mid, content[|content| - 1]), |content| - 1)
  {
    var n, e := |content| - 1, content[|content| - 1];
    if Accepted(refs, e) {
      if e.ruleId in mid.rules {
        UpdateFieldsTwice(refs, e, mid.rules[e.ruleId].fields);
      } else {
        CreatedFieldsStable(refs, e);
        forall j | 0 <= j < |content| && j != n ensures !Siblings(refs, e, content[j]) {
          assert before[j] == content[j] && FieldsImported(refs, st, before, mid, j);
        }
        forall j | 0 <= j < |before| && Accepted(refs, before[j]) ensures before[j].ruleId != e.ruleId {
          assert before[j] == content[j];
        }
        RuleUntouched(refs, orgs, st, before, e.ruleId);
      }
    }
  }

  // ---------- playbooks and resolutions ----------

  /** The stored playbooks are those of the content already. */
  ghost predicate PlaybooksFit(stored: Playbooks, content: seq<PlaybookContent>) {
    && stored.Keys <= Kinds(content)
    && forall i :: 0 <= i < |content| && content[i].complete ==>
         content[i].kind in stored && stored[content[i].kind].version == content[i].version
  }

  lemma FitExactly(stored: Playbooks, content: seq<PlaybookContent>)
    requires DistinctKinds(content)
    ensures PlaybooksAfter(stored, content) == stored <==> PlaybooksFit(stored, content)
  {
    if PlaybooksFit(stored, content) {
      PlaybooksIdle(stored, content);
    } else if PlaybooksAfter(stored, content) == stored {
      PlaybooksSettle(stored, content);
      assert false;
    }
  }

  lemma SiblingKeepsPlaybooks(stored: Playbooks, a: seq<PlaybookContent>, b: seq<PlaybookContent>)
    requires DistinctKinds(a) && DistinctKinds(b) && PlaybooksAgree(a, b) && PlaybooksFit(stored, a)
    ensures PlaybooksFit(PlaybooksAfter(stored, b), a)
  {
    var now := PlaybooksAfter(stored, b);
    forall kind | kind in now ensures kind in Kinds(a) {
      PutPlaybooksExact(stored, b, kind);
    }
    forall i | 0 <= i < |a| && a[i].complete
      ensures a[i].kind in now && now[a[i].kind].version == a[i].version
    {
      PutPlaybooksExact(stored, b, a[i].kind);
      assert a[i].kind in stored && a[i].kind in Kinds(b);
      if j :| 0 <= j < |b| && b[j].kind == a[i].kind && b[j].complete {
        assert b[j].version == a[i].version;
      } else {
        assert SameAt(PutPlaybooks(stored.Keys, stored, b), stored, a[i].kind);
      }
    }
  }

  lemma ResolutionSettled(e: Entry, stored: map<string, Resolution>)
    requires DistinctKinds(e.playbooks)
    ensures ResolutionsAfter(e, stored) == stored <==>
              (HasResolution(e) ==>
                 && e.systemType in stored
                 && stored[e.systemType].text == e.resolution.value
                 && stored[e.systemType].risk == e.resolutionRisk.value
                 && PlaybooksFit(stored[e.systemType].playbooks, e.playbooks))
  {
    if HasResolution(e) && e.systemType in stored {
      FitExactly(stored[e.systemType].playbooks, e.playbooks);
      var now := ResolutionsAfter(e, stored);
      if now[e.systemType] == stored[e.systemType] {
        assert now == stored;
      }
    } else if HasResolution(e) {
      assert e.systemType in ResolutionsAfter(e, stored);
    }
  }

  lemma SiblingKeepsResolutions(e: Entry, other: Entry, stored: map<string, Resolution>)
    requires DistinctKinds(e.playbooks) && DistinctKinds(other.playbooks) && ResolutionsAgree(e, other)
    requires ResolutionsAfter(e, stored) == stored
    ensures ResolutionsAfter(e, ResolutionsAfter(other, stored)) == ResolutionsAfter(other, stored)
  {
    ResolutionSettled(e, stored);
    ResolutionSettled(e, ResolutionsAfter(other, stored));
    if HasResolution(e) && HasResolution(other) && e.systemType == other.systemType {
      SiblingKeepsPlaybooks(stored[e.systemType].playbooks, e.playbooks, other.playbooks);
    }
  }

  lemma SettledResolutionsAgree(a: Entry, b: Entry, stored: map<string, Resolution>)
    requires DistinctKinds(a.playbooks) && DistinctKinds(b.playbooks)
    requires ResolutionsAfter(a, stored) == stored && ResolutionsAfter(b, stored) == stored
    ensures ResolutionsAgree(a, b)
  {
    ResolutionSettled(a, stored);
    ResolutionSettled(b, stored);
  }

  // ---------- pathway, tags, resolutions, acknowledgements ----------

  lemma RestSettles(refs: Refs, orgs: set<OrgId>, st: State, e: Entry)
    requires !Raises(refs, st, e) && (Accepted(refs, e) ==> DistinctKinds(e.playbooks))
    ensures RestSettled(refs, orgs, EntryAfter(refs, orgs, st, e), e)
  {
    if Accepted(refs, e) {
      ResolutionsSettle(e, if e.ruleId in st.rules then st.rules[e.ruleId].resolutions else map[]);
      if Repeats(e.tags, AUTOACK_TAG) {
        RepeatedTagAcks(st.acks, e.ruleId, orgs, if e.ruleId in st.rules then st.rules[e.ruleId].tags else {}, e.tags);
      }
    }
  }

  lemma RepeatedTagAcks(acks: Acks, rule: RuleId, orgs: set<OrgId>, stored: set<string>, tags: seq<string>)
    requires Repeats(tags, AUTOACK_TAG)
    ensures forall o :: o in orgs ==> AckKey(rule, o) in AcksAfter(acks, rule, orgs, stored, tags)
  {
    TagStepsExact(stored, acks, rule, orgs, tags);
    var i, j :| 0 <= i < j < |tags| && tags[i] == AUTOACK_TAG && tags[j] == AUTOACK_TAG;
    assert AUTOACK_TAG in tags;
    forall o | o in orgs ensures AckKey(rule, o) in KeysFor(rule, orgs) {}
  }

  /** Matching the same tags again removes no acknowledgement. */
  lemma SameTagsKeepAcks(acks: Acks, rule: RuleId, orgs: set<OrgId>, tags: seq<string>, k: AckKey)
    ensures k in acks ==> k in AcksAfter(acks, rule, orgs, TagSet(tags), tags)
  {
    TagStepsExact(TagSet(tags), acks, rule, orgs, tags);
  }

  lemma SiblingKeepsRest(refs: Refs, orgs: set<OrgId>, st: State, e: Entry, other: Entry)
    requires RestSettled(refs, orgs, st, e) && !Raises(refs, st, other)
    requires Siblings(refs, e, other) && RestAgrees(refs, e, other)
    requires DistinctKinds(e.playbooks) && DistinctKinds(other.playbooks)
    ensures RestSettled(refs, orgs, EntryAfter(refs, orgs, st, other), e)
  {
    SiblingKeepsResolutions(e, other, st.rules[e.ruleId].resolutions);
    forall o | o in orgs && AckKey(e.ruleId, o) in st.acks
      ensures AckKey(e.ruleId, o) in EntryAfter(refs, orgs, st, other).acks
    {
      SameTagsKeepAcks(st.acks, e.ruleId, orgs, other.tags, AckKey(e.ruleId, o));
    }
  }

  lemma {:induction false} AllRestSettle(refs: Refs, orgs: set<OrgId>, st: State, content: seq<Entry>)
    requires EntriesAfter(refs, orgs, st, content).Some? && DistinctPlaybooks(refs, content)
    requires forall i, j :: 0 <= i < j < |content| && Siblings(refs, content[i], content[j]) ==>
               RestAgrees(refs, content[i], content[j])
    ensures forall i :: 0 <= i < |content| ==>
              RestSettled(refs, orgs, EntriesAfter(refs, orgs, st, content).value.0, content[i])
  {
    if content != [] {
      var n, before := |content| - 1, content[..|content| - 1];
      AllRestSettle(refs, orgs, st, before);
      var mid := EntriesAfter(refs, orgs, st, before).value.0;
      forall i | 0 <= i < |content|
        ensures RestSettled(refs, orgs, EntryAfter(refs, orgs, mid, content[n]), content[i])
      {
        if i == n {
          RestSettles(refs, orgs, mid, content[n]);
        } else {
          assert before[i] == content[i];
          if Siblings(refs, content[i], content[n]) {
            SiblingKeepsRest(refs, orgs, mid, content[i], content[n]);
          } else if Accepted(refs, content[i]) {
            OthersLeft(refs, orgs, mid, content[n], content[i].ruleId);
            assert forall o :: SameAt(EntryAfter(refs, orgs, mid, content[n]).acks, mid.acks,
                AckKey(content[i].ruleId, o));
          }
        }
      }
    }
  }

  // ---------- an entry that changes nothing ----------

  /** An entry is settled exactly when importing it changes nothing and counts it as the same. */
  lemma SettledExactly(refs: Refs, orgs: set<OrgId>, st: State, stats: Stats, e: Entry)
    ensures Settled(refs, orgs, st, e) <==>
              && !Raises(refs, st, e) && EntryAfter(refs, orgs, st, e) == st
              && Count(refs, st, stats, e) == if Accepted(refs, e) then stats.(same := stats.same + 1) else stats
  {
    if Accepted(refs, e) && Resolvable(refs, e) && e.ruleId in st.rules {
      var rule := st.rules[e.ruleId];
      RuleKept(refs, e, rule);
      AcksKept(st.acks, e.ruleId, orgs, e.tags);
      if RuleAfter(refs, e, Some(rule)) == rule {
        assert rule.tags == TagSet(e.tags);
        assert st.rules[e.ruleId := rule] == st.rules;
      } else {
        assert !Raises(refs, st, e) ==> EntryAfter(refs, orgs, st, e).rules[e.ruleId] != rule;
      }
    }
  }

  lemma RuleKept(refs: Refs, e: Entry, rule: Rule)
    requires Accepted(refs, e) && Resolvable(refs, e)
    ensures RuleAfter(refs, e, Some(rule)) == rule <==>
              && rule.ruleset == RulesetOf(refs.rulesets, e.pythonModule).value
              && UpdatedFields(refs, e, rule.fields) == rule.fields
              && rule.pathway == PathwayOf(refs, e) && rule.tags == TagSet(e.tags)
              && ResolutionsAfter(e, rule.resolutions) == rule.resolutions
  {
  }

  lemma AcksKept(acks: Acks, rule: RuleId, orgs: set<OrgId>, tags: seq<string>)
    ensures AcksAfter(acks, rule, orgs, TagSet(tags), tags) == acks <==>
              (Repeats(tags, AUTOACK_TAG) ==> forall o :: o in orgs ==> AckKey(rule, o) in acks)
  {
    TagStepsExact(TagSet(tags), acks, rule, orgs, tags);
    if Repeats(tags, AUTOACK_TAG) {
      RepeatedTagAcks(acks, rule, orgs, TagSet(tags), tags);
      if forall o :: o in orgs ==> AckKey(rule, o) in acks {
        assert AddAutoacks(acks, rule, orgs) == acks;
      }
    }
  }

  // ---------- importing again ----------

  function AcceptedCount(refs: Refs, content: seq<Entry>): nat {
    if content == [] then 0
    else AcceptedCount(refs, content[..|content| - 1]) + if Accepted(refs, content[|content| - 1]) then 1 else 0
  }

  /** Importing the content changes nothing at any moment, and counts every accepted entry as
      the same. */
  ghost predicate Idle(refs: Refs, orgs: set<OrgId>, st: State, content: seq<Entry>) {
    forall n :: 0 <= n <= |content| ==>
      EntriesAfter(refs, orgs, st, content[..n]) == Some((st, Stats(0, 0, AcceptedCount(refs, content[..n]), 0)))
  }

  lemma {:induction false} SettledEntriesIdle(refs: Refs, orgs: set<OrgId>, st: State, content: seq<Entry>)
    requires forall i :: 0 <= i < |content| ==> Settled(refs, orgs, st, content[i])
    ensures EntriesAfter(refs, orgs, st, content) == Some((st, Stats(0, 0, AcceptedCount(refs, content), 0)))
  {
    if content != [] {
      var before := content[..|content| - 1];
      SettledEntriesIdle(refs, orgs, st, before);
      SettledExactly(refs, orgs, st, Stats(0, 0, AcceptedCount(refs, before), 0), content[|content| - 1]);
    }
  }

  lemma IdleExactly(refs: Refs, orgs: set<OrgId>, st: State, content: seq<Entry>)
    ensures Idle(refs, orgs, st, content) <==> forall i :: 0 <= i < |content| ==> Settled(refs, orgs, st, content[i])
  {
    if forall i :: 0 <= i < |content| ==> Settled(refs, orgs, st, content[i]) {
      forall n | 0 <= n <= |content|
        ensures EntriesAfter(refs, orgs, st, content[..n]) ==
                  Some((st, Stats(0, 0, AcceptedCount(refs, content[..n]), 0)))
      {
        SettledEntriesIdle(refs, orgs, st, content[..n]);
      }
    }
    if Idle(refs, orgs, st, content) {
      forall i | 0 <= i < |content| ensures Settled(refs, orgs, st, content[i]) {
        assert content[..i + 1][..i] == content[..i];
        SettledExactly(refs, orgs, st, Stats(0, 0, AcceptedCount(refs, content[..i]), 0), content[i]);
      }
    }
  }

  // ---------- the second import goes through ----------

  /** After a successful import every accepted entry refers only to rows that exist, and its
      rule is in the entry's ruleset. */
  lemma {:induction false} AllResolvable(refs: Refs, orgs: set<OrgId>, st: State, content: seq<Entry>)
    requires EntriesAfter(refs, orgs, st, content).Some?
    ensures forall i :: 0 <= i < |content| && Accepted(refs, content[i]) ==>
              RulesetFits(refs, EntriesAfter(refs, orgs, st, content).value.0, content[i], true)
  {
    if content != [] {
      var n, before := |content| - 1, content[..|content| - 1];
      AllResolvable(refs, orgs, st, before);
      var mid := EntriesAfter(refs, orgs, st, before).value.0;
      forall i | 0 <= i < |content| && Accepted(refs, content[i])
        ensures RulesetFits(refs, EntryAfter(refs, orgs, mid, content[n]), content[i], true)
      {
        if i < n {
          assert before[i] == content[i];
          assert RulesetFits(refs, mid, before[i], true);
        }
      }
    }
  }

  /** The entry resolves, and its rule, if stored, is in its ruleset. */
  ghost predicate RulesetFits(refs: Refs, st: State, e: Entry, stored: bool)
    requires Accepted(refs, e)
  {
    && Resolvable(refs, e) && (stored ==> e.ruleId in st.rules)
    && (e.ruleId in st.rules ==> st.rules[e.ruleId].ruleset == RulesetOf(refs.rulesets, e.pythonModule).value)
  }

  ghost predicate OneRuleset(refs: Refs, content: seq<Entry>) {
    forall i, j :: 0 <= i < |content| && 0 <= j < |content| && Siblings(refs, content[i], content[j]) ==>
      RulesetOf(refs.rulesets, content[i].pythonModule) == RulesetOf(refs.rulesets, content[j].pythonModule)
  }

  /** From tables in which every rule is in its entries' one ruleset the entries go through. */
  lemma {:induction false} EntriesGoThrough(refs: Refs, orgs: set<OrgId>, st: State, content: seq<Entry>, n: nat)
    requires n <= |content| && OneRuleset(refs, content)
    requires forall i :: 0 <= i < |content| && Accepted(refs, content[i]) ==> RulesetFits(refs, st, content[i], false)
    ensures EntriesAfter(refs, orgs, st, content[..n]).Some?
    ensures forall i :: 0 <= i < |content| && Accepted(refs, content[i]) ==>
              RulesetFits(refs, EntriesAfter(refs, orgs, st, content[..n]).value.0, content[i], false)
  {
    if n > 0 {
      EntriesGoThrough(refs, orgs, st, content, n - 1);
      assert content[..n][..n - 1] == content[..n - 1];
      var mid, e := EntriesAfter(refs, orgs, st, content[..n - 1]).value.0, content[n - 1];
      assert Accepted(refs, e) ==> RulesetFits(refs, mid, e, false);
      forall i | 0 <= i < |content| && Accepted(refs, content[i])
        ensures RulesetFits(refs, EntryAfter(refs, orgs, mid, e), content[i], false)
      {
        assert RulesetFits(refs, mid, content[i], false);
        assert Siblings(refs, content[i], content[n - 1]) ==>
            RulesetOf(refs.rulesets, content[i].pythonModule) == RulesetOf(refs.rulesets, content[n - 1].pythonModule);
      }
    }
  }

  /** The tables after the whole import, in two steps. */
  lemma ImportSteps(refs: Refs, orgs: set<OrgId>, st: State, content: seq<Entry>)
    requires refs.rulesets != [] && Import(refs, orgs, st, content).Some?
    ensures EntriesAfter(refs, orgs, st, content).Some?
    ensures Import(refs, orgs, st, content).value.0 ==
            DeleteExtra(EntriesAfter(refs, orgs, st, content).value.0, ContentIds(content))
  {
  }

  lemma SecondImportSucceeds(refs: Refs, orgs: set<OrgId>, st: State, content: seq<Entry>)
    requires refs.rulesets != [] && Import(refs, orgs, st, content).Some?
    ensures forall n :: 0 <= n <= |content| ==>
              EntriesAfter(refs, orgs, Import(refs, orgs, st, content).value.0, content[..n]).Some?
    ensures Import(refs, orgs, Import(refs, orgs, st, content).value.0, content).Some?
  {
    ImportSteps(refs, orgs, st, content);
    AllResolvable(refs, orgs, st, content);
    var imported, once := EntriesAfter(refs, orgs, st, content).value.0, Import(refs, orgs, st, content).value.0;
    forall i | 0 <= i < |content| && Accepted(refs, content[i]) ensures RulesetFits(refs, once, content[i], false) {
      assert RulesetFits(refs, imported, content[i], true);
    }
    forall i, j | 0 <= i < |content| && 0 <= j < |content| && Siblings(refs, content[i], content[j])
      ensures RulesetOf(refs.rulesets, content[i].pythonModule) == RulesetOf(refs.rulesets, content[j].pythonModule)
    {
      assert RulesetFits(refs, imported, content[i], true) && RulesetFits(refs, imported, content[j], true);
    }
    forall n | 0 <= n <= |content| ensures EntriesAfter(refs, orgs, once, content[..n]).Some? {
      EntriesGoThrough(refs, orgs, once, content, n);
    }
    assert content[..|content|] == content;
  }

  // ---------- when the second import counts nothing ----------

  /** The rules and their fields, whatever else is stored with them. */
  ghost predicate SameFields(a: State, b: State) {
    a.rules.Keys == b.rules.Keys && forall r :: r in a.rules ==> a.rules[r].fields == b.rules[r].fields
  }

  /** Importing entries counts no rule as added or updated exactly when the fields of each are
      settled beforehand; the rules then keep their fields. */
  lemma {:induction false} CountsExactly(refs: Refs, orgs: set<OrgId>, st: State, content: seq<Entry>)
    requires EntriesAfter(refs, orgs, st, content).Some?
    ensures var (now, stats) := EntriesAfter(refs, orgs, st, content).value;
            && stats.deleted == 0 && stats.added + stats.updated + stats.same == AcceptedCount(refs, content)
            && (stats.added == stats.updated == 0 <==>
                forall i :: 0 <= i < |content| ==> FieldsSettled(refs, st, content[i]))
            && (stats.added == stats.updated == 0 ==> SameFields(now, st))
  {
    if content != [] {
      var n, before := |content| - 1, content[..|content| - 1];
      CountsExactly(refs, orgs, st, before);
      var (mid, stats) := EntriesAfter(refs, orgs, st, before).value;
      assert forall i :: 0 <= i < n ==> before[i] == content[i];
      if stats.added == stats.updated == 0 {
        assert Accepted(refs, content[n]) && content[n].ruleId in st.rules ==>
            mid.rules[content[n].ruleId].fields == st.rules[content[n].ruleId].fields;
      } else {
        var i :| 0 <= i < |before| && !FieldsSettled(refs, st, before[i]);
        assert !FieldsSettled(refs, st, content[i]);
      }
    }
  }

  /** A rule created by its only entry has just the fields it was created with. */
  lemma {:induction false} CreatedAlone(refs: Refs, orgs: set<OrgId>, st: State, content: seq<Entry>, i: nat)
    requires EntriesAfter(refs, orgs, st, content).Some? && i < |content|
    requires Alone(refs, content, i) && content[i].ruleId !in st.rules
    ensures FieldsResolvable(refs, content[i])
    ensures var now := EntriesAfter(refs, orgs, st, content).value.0;
            content[i].ruleId in now.rules && now.rules[content[i].ruleId].fields == CreatedFields(refs, content[i])
    decreases |content|
  {
    var n, before := |content| - 1, content[..|content| - 1];
    if i < n {
      assert before[i] == content[i];
      forall j | 0 <= j < |before| && j != i ensures !Siblings(refs, before[i], before[j]) {
        assert before[j] == content[j];
      }
      CreatedAlone(refs, orgs, st, before, i);
      assert !Siblings(refs, content[i], content[n]);
      OthersLeft(refs, orgs, EntriesAfter(refs, orgs, st, before).value.0, content[n], content[i].ruleId);
    } else {
      forall j | 0 <= j < |before| && Accepted(refs, before[j]) ensures before[j].ruleId != content[i].ruleId {
        assert before[j] == content[j] && !Siblings(refs, content[i], content[j]);
      }
      RuleUntouched(refs, orgs, st, before, content[i].ruleId);
    }
  }

  lemma SettledAfterDelete(refs: Refs, orgs: set<OrgId>, st: State, e: Entry, ids: set<RuleId>)
    requires Accepted(refs, e) ==> e.ruleId in ids
    ensures FieldsSettled(refs, DeleteExtra(st, ids), e) <==> FieldsSettled(refs, st, e)
    ensures RestSettled(refs, orgs, DeleteExtra(st, ids), e) <==> RestSettled(refs, orgs, st, e)
  {
  }

  /** Once the content is imported, the fields of all its entries are settled exactly when it is
      repeatable in its fields. */
  lemma FieldsSettledExactly(refs: Refs, orgs: set<OrgId>, st: State, content: seq<Entry>)
    requires refs.rulesets != [] && Import(refs, orgs, st, content).Some?
    ensures (forall i :: 0 <= i < |content| ==>
              FieldsSettled(refs, Import(refs, orgs, st, content).value.0, content[i]))
            <==> FieldsRepeatable(refs, st, content)
  {
    ImportSteps(refs, orgs, st, content);
    var imported, once := EntriesAfter(refs, orgs, st, content).value.0, Import(refs, orgs, st, content).value.0;
    if FieldsRepeatable(refs, st, content) {
      AllFieldsSettle(refs, orgs, st, content);
      forall i | 0 <= i < |content| ensures FieldsSettled(refs, once, content[i]) {
        assert FieldsImported(refs, st, content, imported, i);
        assert content[i] in content;
        SettledAfterDelete(refs, orgs, imported, content[i], ContentIds(content));
      }
    }
    if forall i :: 0 <= i < |content| ==> FieldsSettled(refs, once, content[i]) {
      forall i, j | 0 <= i < j < |content| && Siblings(refs, content[i], content[j])
        ensures FieldsAgree(refs, content[i], content[j])
      {
        assert FieldsSettled(refs, once, content[i]) && FieldsSettled(refs, once, content[j]);
        SettledFieldsAgree(refs, once.rules[content[i].ruleId].fields, content[i], content[j]);
      }
      forall i | 0 <= i < |content| ensures !Unripe(refs, st, content, i) {
        assert FieldsSettled(refs, once, content[i]);
        if Unripe(refs, st, content, i) {
          CreatedAlone(refs, orgs, st, content, i);
          CreatedFieldsStable(refs, content[i]);
          assert false;
        }
      }
      assert "" !in once.rules;
      forall i | 0 <= i < |content| && Accepted(refs, content[i]) ensures content[i].ruleId != "" {
        assert FieldsSettled(refs, once, content[i]);
      }
    }
  }

  // ---------- the theorems ----------

  /** The second import always goes through, and it counts every accepted entry as the same,
      none as added or updated and no rule as deleted, if and only if the entries of each rule
      agree in their fields, no accepted rule id is empty, and no rule was created from the
      empty summary of its only entry. */
  lemma ReimportCountsExactly(refs: Refs, orgs: set<OrgId>, st: State, content: seq<Entry>)
    requires refs.rulesets != [] && Import(refs, orgs, st, content).Some?
    ensures var once := Import(refs, orgs, st, content).value.0;
            && Import(refs, orgs, once, content).Some?
            && (Import(refs, orgs, once, content).value.1 == Stats(0, 0, AcceptedCount(refs, content), 0)
                <==> FieldsRepeatable(refs, st, content))
  {
    var once := Import(refs, orgs, st, content).value.0;
    SecondImportSucceeds(refs, orgs, st, content);
    ImportSteps(refs, orgs, once, content);
    ImportSteps(refs, orgs, st, content);
    FieldsSettledExactly(refs, orgs, st, content);
    CountsExactly(refs, orgs, once, content);
    if FieldsRepeatable(refs, st, content) {
      assert EntriesAfter(refs, orgs, once, content).value.0.rules.Keys - ContentIds(content) == {};
    }
  }

  /** No entry of the second import changes any rule, tag, resolution, playbook or
      acknowledgement at any moment, if and only if the entries of each rule also agree in
      pathway and tags, and in the resolution where they are for one system type. */
  lemma ReimportIdleExactly(refs: Refs, orgs: set<OrgId>, st: State, content: seq<Entry>)
    requires refs.rulesets != [] && Import(refs, orgs, st, content).Some? && DistinctPlaybooks(refs, content)
    ensures Idle(refs, orgs, Import(refs, orgs, st, content).value.0, content) <==> Repeatable(refs, st, content)
  {
    ImportSteps(refs, orgs, st, content);
    var imported, once := EntriesAfter(refs, orgs, st, content).value.0, Import(refs, orgs, st, content).value.0;
    IdleExactly(refs, orgs, once, content);
    FieldsSettledExactly(refs, orgs, st, content);
    if Repeatable(refs, st, content) {
      AllRestSettle(refs, orgs, st, content);
      forall i | 0 <= i < |content| ensures Settled(refs, orgs, once, content[i]) {
        assert content[i] in content;
        SettledAfterDelete(refs, orgs, imported, content[i], ContentIds(content));
      }
    }
    if forall i :: 0 <= i < |content| ==> Settled(refs, orgs, once, content[i]) {
      forall i, j | 0 <= i < j < |content| && Siblings(refs, content[i], content[j])
        ensures RestAgrees(refs, content[i], content[j])
      {
        assert Settled(refs, orgs, once, content[i]) && Settled(refs, orgs, once, content[j]);
        SettledResolutionsAgree(content[i], content[j], once.rules[content[i].ruleId].resolutions);
      }
    }
  }

  /** Importing repeatable content again ends with the same tables. */
  lemma ReimportIsIdle(refs: Refs, orgs: set<OrgId>, st: State, content: seq<Entry>)
    requires refs.rulesets != [] && Import(refs, orgs, st, content).Some? && DistinctPlaybooks(refs, content)
    requires Repeatable(refs, st, content)
    ensures var once := Import(refs, orgs, st, content).value.0;
            Import(refs, orgs, once, content) == Some((once, Stats(0, 0, AcceptedCount(refs, content), 0)))
  {
    var once := Import(refs, orgs, st, content).value.0;
    ImportSteps(refs, orgs, st, content);
    ReimportIdleExactly(refs, orgs, st, content);
    assert content[..|content|] == content;
    assert EntriesAfter(refs, orgs, once, content) == Some((once, Stats(0, 0, AcceptedCount(refs, content), 0)));
    DeleteExtraTwice(EntriesAfter(refs, orgs, st, content).value.0, ContentIds(content));
  }

  lemma DeleteExtraTwice(st: State, ids: set<RuleId>)
    ensures DeleteExtra(DeleteExtra(st, ids), ids) == DeleteExtra(st, ids)
    ensures DeleteExtra(st, ids).rules.Keys - ids == {}
  {
  }

  /** The last accepted entry of a rule. */
  ghost predicate LastOfRule(refs: Refs, content: seq<Entry>, i: nat)
    requires i < |content|
  {
    Accepted(refs, content[i]) && forall j :: i < j < |content| ==> !Siblings(refs, content[i], content[j])
  }

  /** Whatever the entries of a rule disagree in, the last one wins: the rule has its tags and
      pathway, its fields are settled for it or those it was created with, and its resolution
      and playbooks are settled. */
  lemma {:induction false} LastEntryWins(refs: Refs, orgs: set<OrgId>, st: State, content: seq<Entry>, i: nat)
    requires EntriesAfter(refs, orgs, st, content).Some? && DistinctPlaybooks(refs, content)
    requires i < |content| && LastOfRule(refs, content, i)
    ensures var now, e := EntriesAfter(refs, orgs, st, content).value.0, content[i];
            && RestSettled(refs, orgs, now, e)
            && (FieldsSettled(refs, now, e) || now.rules[e.ruleId].fields == CreatedFields(refs, e))
    decreases |content|
  {
    var n, before, e := |content| - 1, content[..|content| - 1], content[i];
    var mid := EntriesAfter(refs, orgs, st, before).value.0;
    if i < n {
      assert before[i] == e;
      forall j | i < j < |before| ensures !Siblings(refs, before[i], before[j]) {
        assert before[j] == content[j];
      }
      LastEntryWins(refs, orgs, st, before, i);
      assert !Siblings(refs, e, content[n]);
      OthersLeft(refs, orgs, mid, content[n], e.ruleId);
      assert forall o :: SameAt(EntryAfter(refs, orgs, mid, content[n]).acks, mid.acks, AckKey(e.ruleId, o));
    } else {
      RestSettles(refs, orgs, mid, e);
      if e.ruleId in mid.rules {
        UpdateFieldsTwice(refs, e, mid.rules[e.ruleId].fields);
      }
    }
  }

  /** Even when the entries of a rule disagree, a second import ends with the tags, the pathway
      and the last entry's resolution of the first. */
  lemma SecondImportEndsAlike(refs: Refs, orgs: set<OrgId>, st: State, content: seq<Entry>, i: nat)
    requires refs.rulesets != [] && Import(refs, orgs, st, content).Some? && DistinctPlaybooks(refs, content)
    requires i < |content| && LastOfRule(refs, content, i) && content[i].ruleId != ""
    ensures var once, r := Import(refs, orgs, st, content).value.0, content[i].ruleId;
            && Import(refs, orgs, once, content).Some?
            && var twice := Import(refs, orgs, once, content).value.0;
               && r in once.rules && r in twice.rules
               && twice.rules[r].tags == once.rules[r].tags == TagSet(content[i].tags)
               && twice.rules[r].pathway == once.rules[r].pathway == PathwayOf(refs, content[i])
               && ResolutionsAfter(content[i], once.rules[r].resolutions) == once.rules[r].resolutions
               && ResolutionsAfter(content[i], twice.rules[r].resolutions) == twice.rules[r].resolutions
  {
    var once := Import(refs, orgs, st, content).value.0;
    SecondImportSucceeds(refs, orgs, st, content);
    ImportSteps(refs, orgs, st, content);
    ImportSteps(refs, orgs, once, content);
    assert content[i] in content;
    LastEntryWins(refs, orgs, st, content, i);
    LastEntryWins(refs, orgs, once, content, i);
  }

  /** After any successful import no rule outside the content is left, and every
      acknowledgement that was not made automatically survives with its rule. */
  lemma ImportOutcome(refs: Refs, orgs: set<OrgId>, st: State, content: seq<Entry>, k: AckKey)
    requires refs.rulesets != [] && Import(refs, orgs, st, content).Some?
    ensures var once := Import(refs, orgs, st, content).value.0;
            && once.rules.Keys <= ContentIds(content)
            && (forall i :: 0 <= i < |content| && Accepted(refs, content[i]) && content[i].ruleId != "" ==>
                  content[i].ruleId in once.rules)
            && (k in st.acks && st.acks[k] != AUTOACK_CREATOR && k.rule in once.rules ==>
                  k in once.acks && once.acks[k] == st.acks[k])
  {
    ImportSteps(refs, orgs, st, content);
    HandMadeAcksSurvive(refs, orgs, st, content, k);
    AllResolvable(refs, orgs, st, content);
    forall i | 0 <= i < |content| && Accepted(refs, content[i]) && content[i].ruleId != ""
      ensures content[i].ruleId in Import(refs, orgs, st, content).value.0.rules
    {
      assert content[i] in content;
      assert RulesetFits(refs, EntriesAfter(refs, orgs, st, content).value.0, content[i], true);
    }
  }

  lemma {:induction false} HandMadeAcksSurvive(refs: Refs, orgs: set<OrgId>, st: State, content: seq<Entry>, k: AckKey)
    requires EntriesAfter(refs, orgs, st, content).Some?
    ensures k in st.acks && st.acks[k] != AUTOACK_CREATOR ==>
              && k in EntriesAfter(refs, orgs, st, content).value.0.acks
              && EntriesAfter(refs, orgs, st, content).value.0.acks[k] == st.acks[k]
  {
    if content != [] {
      var e, before := content[|content| - 1], content[..|content| - 1];
      HandMadeAcksSurvive(refs, orgs, st, before, k);
      var mid := EntriesAfter(refs, orgs, st, before).value.0;
      var tags := if e.ruleId in mid.rules then mid.rules[e.ruleId].tags else {};
      AcksSurvive(mid.acks, e.ruleId, orgs, tags, e.tags);
    }
  }

  /** With an empty summary and a generic text the second import is not idle: it updates the
      rule the first one created. */
  lemma EmptySummaryIsUpdatedLater(refs: Refs, orgs: set<OrgId>, st: State, e: Entry, stats: Stats)
    requires Accepted(refs, e) && Resolvable(refs, e) && e.ruleId !in st.rules
    requires EmptySummary(e)
    ensures !Raises(refs, st, e) && !Raises(refs, EntryAfter(refs, orgs, st, e), e)
    ensures Count(refs, EntryAfter(refs, orgs, st, e), stats, e) == stats.(updated := stats.updated + 1)
  {
    CreatedFieldsStable(refs, e);
  }
}
