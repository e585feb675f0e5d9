/** What importing one rule's content does to its row, its tags, its resolutions with their
    playbooks, and its acknowledgements. */
module ContentRules {
  import opened Tables

  datatype PlaybookContent = PlaybookContent(
    kind: string, complete: bool, play: string, description: string, path: string, version: string)

  /** One content entry. A missing value is None, and so is a null wherever a null is read as
      a blank; dates are already parsed; the resolution and its risk are None when empty. */
  datatype Entry = Entry(
    ruleId: RuleId, pythonModule: string, description: Option<string>, reboot: Option<bool>,
    summary: Option<string>, generic: Option<string>, reason: Option<string>, moreInfo: Option<string>,
    nodeId: Option<string>, publishDate: Option<Time>, isActive: bool, category: string,
    impact: Option<string>, likelihood: Option<nat>, tags: seq<string>, component: Option<string>,
    systemType: string, resolution: Option<string>, resolutionRisk: Option<string>,
    playbooks: seq<PlaybookContent>)

  datatype Ruleset = Ruleset(name: string, startsWith: string)

  /** The tables the import refers to, and the switch that disables CVE rules. */
  datatype Refs = Refs(
    rulesets: seq<Ruleset>, impacts: map<string, nat>, categories: set<string>, risks: set<string>,
    systemTypes: set<string>, pathways: map<(string, string), string>, disableCve: bool)

  datatype Playbook = Playbook(play: string, description: string, path: string, version: string)
  type Playbooks = map<string, Playbook>

  datatype Resolution = Resolution(text: string, risk: string, playbooks: Playbooks)

  /** The fields of a rule that the import tracks for changes. */
  datatype Fields = Fields(
    description: string, reboot: bool, summary: string, generic: string, reason: string, moreInfo: string,
    nodeId: string, publish: Option<Time>, active: bool, category: string, impact: string,
    likelihood: nat, totalRisk: nat)

  datatype Rule = Rule(
    ruleset: string, fields: Fields, pathway: Option<string>, tags: set<string>, resolutions: map<string, Resolution>)

  datatype AckKey = AckKey(rule: RuleId, org: OrgId)

  /** Acknowledgements, with who created them. */
  type Acks = map<AckKey, string>

  const AUTOACK_TAG := "autoack"
  const AUTOACK_CREATOR := "Red Hat Insights"

  // ---------- which entries count ----------

  function RulesetOf(rulesets: seq<Ruleset>, pythonModule: string): Option<string> {
    if rulesets == [] then None
    else if rulesets[0].startsWith <= pythonModule then Some(rulesets[0].name)
    else RulesetOf(rulesets[1..], pythonModule)
  }

  predicate Accepted(refs: Refs, e: Entry) {
    RulesetOf(refs.rulesets, e.pythonModule).Some?
  }

  function ImpactName(e: Entry): string {
    e.impact.GetOr("null")
  }

  predicate FieldsResolvable(refs: Refs, e: Entry) {
    e.category in refs.categories && ImpactName(e) in refs.impacts
  }

  /** Every row the entry refers to exists. */
  predicate Resolvable(refs: Refs, e: Entry) {
    && FieldsResolvable(refs, e)
    && (e.resolution.Some? && e.resolutionRisk.Some? ==>
          e.systemType in refs.systemTypes && e.resolutionRisk.value in refs.risks)
  }

  // ---------- fields ----------

  /** A stored date that is not older than the content's wins; no date clears it. */
  function PublishDate(stored: Option<Time>, date: Option<Time>): Option<Time> {
    if date.None? then None
    else if stored.Some? && stored.value >= date.value then stored
    else date
  }

  predicate ActiveAfter(refs: Refs, e: Entry) {
    !(refs.disableCve && "cve" in e.tags) && e.isActive
  }

  function UpdatedFields(refs: Refs, e: Entry, f: Fields): Fields
    requires FieldsResolvable(refs, e)
  {
    var summary := e.summary.GetOr(f.summary);
    var generic := e.generic.GetOr("");
    Fields(
      e.description.GetOr(f.description), e.reboot.GetOr(f.reboot),
      if generic != "" && summary == "" then generic else summary,
      generic, e.reason.GetOr(""), e.moreInfo.GetOr(""), e.nodeId.GetOr(""),
      PublishDate(f.publish, e.publishDate), ActiveAfter(refs, e), e.category, ImpactName(e),
      e.likelihood.GetOr(0), (e.likelihood.GetOr(0) + refs.impacts[ImpactName(e)]) / 2)
  }

  function CreatedFields(refs: Refs, e: Entry): Fields
    requires FieldsResolvable(refs, e)
  {
    Fields(
      e.description.GetOr(""), e.reboot.GetOr(false), e.summary.GetOr(e.generic.GetOr("")),
      e.generic.GetOr(""), e.reason.GetOr(""), e.moreInfo.GetOr(""), e.nodeId.GetOr(""),
      e.publishDate, ActiveAfter(refs, e), e.category, ImpactName(e),
      e.likelihood.GetOr(0), (e.likelihood.GetOr(0) + refs.impacts[ImpactName(e)]) / 2)
  }

  /** Updating twice from the same content is updating once. */
  lemma UpdateFieldsTwice(refs: Refs, e: Entry, f: Fields)
    requires FieldsResolvable(refs, e)
    ensures UpdatedFields(refs, e, UpdatedFields(refs, e, f)) == UpdatedFields(refs, e, f)
  {
  }

  /** The content combines an empty summary with a generic text. */
  predicate EmptySummary(e: Entry) {
    e.summary == Some("") && e.generic.GetOr("") != ""
  }

  /** A freshly created rule is left alone by the next import exactly when the content does not
      combine an empty summary with a generic text. */
  lemma CreatedFieldsStable(refs: Refs, e: Entry)
    requires FieldsResolvable(refs, e)
    ensures UpdatedFields(refs, e, CreatedFields(refs, e)) == CreatedFields(refs, e) <==>
              !EmptySummary(e)
  {
  }

  // ---------- playbooks ----------

  function PlaybookOf(c: PlaybookContent): Playbook {
    Playbook(c.play, c.description, c.path, c.version)
  }

  function Kinds(content: seq<PlaybookContent>): set<string> {
    set c | c in content :: c.kind
  }

  predicate DistinctKinds(content: seq<PlaybookContent>) {
    forall i, j :: 0 <= i < j < |content| ==> content[i].kind != content[j].kind
  }

  /** Add or update one playbook; only a change of version updates a stored one. */
  function PutPlaybook(stored: set<string>, now: Playbooks, c: PlaybookContent): Playbooks {
    if !c.complete then now
    else if c.kind in stored && c.kind in now && now[c.kind].version == c.version then now
    else now[c.kind := PlaybookOf(c)]
  }

  function PutPlaybooks(stored: set<string>, now: Playbooks, content: seq<PlaybookContent>): Playbooks {
    if content == [] then now
    else PutPlaybook(stored, PutPlaybooks(stored, now, content[..|content| - 1]), content[|content| - 1])
  }

  function PlaybooksAfter(was: Playbooks, content: seq<PlaybookContent>): Playbooks {
    PutPlaybooks(was.Keys, was, content) - (was.Keys - Kinds(content))
  }

  lemma {:induction false} PutPlaybooksExact(was: Playbooks, content: seq<PlaybookContent>, kind: string)
    requires DistinctKinds(content)
    ensures var now := PutPlaybooks(was.Keys, was, content);
            && (kind in now <==>
                kind in was || exists i :: 0 <= i < |content| && content[i].kind == kind && content[i].complete)
            && forall i :: 0 <= i < |content| && content[i].kind == kind && content[i].complete ==>
                 kind in now && now[kind] == if kind in was && was[kind].version == content[i].version then was[kind]
                                             else PlaybookOf(content[i])
    ensures (forall i :: 0 <= i < |content| ==> content[i].kind != kind || !content[i].complete) ==>
              SameAt(PutPlaybooks(was.Keys, was, content), was, kind)
  {
    if content != [] {
      PutPlaybooksExact(was, content[..|content| - 1], kind);
    }
  }

  /** For content with distinct kinds: exactly its complete playbooks and the stored ones it
      names incompletely remain, each with the content's version; and a second pass changes
      nothing. */
  lemma PlaybooksSettle(was: Playbooks, content: seq<PlaybookContent>)
    requires DistinctKinds(content)
    ensures forall i :: 0 <= i < |content| && content[i].complete ==>
              && content[i].kind in PlaybooksAfter(was, content)
              && PlaybooksAfter(was, content)[content[i].kind].version == content[i].version
    ensures PlaybooksAfter(was, content).Keys <= Kinds(content)
    ensures PlaybooksAfter(PlaybooksAfter(was, content), content) == PlaybooksAfter(was, content)
  {
    var once := PlaybooksAfter(was, content);
    forall i | 0 <= i < |content| && content[i].complete
      ensures content[i].kind in once && once[content[i].kind].version == content[i].version
    {
      PutPlaybooksExact(was, content, content[i].kind);
      assert content[i] in content;
    }
    forall kind | kind in once ensures kind in Kinds(content) {
      PutPlaybooksExact(was, content, kind);
      if kind !in was {
        var i :| 0 <= i < |content| && content[i].kind == kind && content[i].complete;
        assert content[i] in content;
      }
    }
    PlaybooksIdle(once, content);
  }

  lemma {:induction false} PlaybooksIdle(was: Playbooks, content: seq<PlaybookContent>)
    requires forall i :: 0 <= i < |content| && content[i].complete ==>
               content[i].kind in was && was[content[i].kind].version == content[i].version
    ensures PutPlaybooks(was.Keys, was, content) == was
  {
    if content != [] {
      PlaybooksIdle(was, content[..|content| - 1]);
    }
  }

  // ---------- resolutions, pathway ----------

  function ResolutionsAfter(e: Entry, was: map<string, Resolution>): map<string, Resolution> {
    if e.resolution.None? || e.resolutionRisk.None? then was
    else
      var stored := if e.systemType in was then was[e.systemType].playbooks else map[];
      was[e.systemType := Resolution(e.resolution.value, e.resolutionRisk.value, PlaybooksAfter(stored, e.playbooks))]
  }

  lemma ResolutionsSettle(e: Entry, was: map<string, Resolution>)
    requires DistinctKinds(e.playbooks)
    ensures ResolutionsAfter(e, ResolutionsAfter(e, was)) == ResolutionsAfter(e, was)
  {
    if e.resolution.Some? && e.resolutionRisk.Some? {
      PlaybooksSettle(if e.systemType in was then was[e.systemType].playbooks else map[], e.playbooks);
    }
  }

  function PathwayOf(refs: Refs, e: Entry): Option<string> {
    if e.component.Some? && e.resolutionRisk.Some? && (e.component.value, e.resolutionRisk.value) in refs.pathways
    then Some(refs.pathways[(e.component.value, e.resolutionRisk.value)]) else None
  }

  // ---------- tags and automatic acknowledgements ----------

  function TagSet(tags: seq<string>): set<string> {
    set t | t in tags
  }

  function AddAutoacks(acks: Acks, rule: RuleId, orgs: set<OrgId>): Acks {
    acks + map k | k in KeysFor(rule, orgs) && k !in acks :: AUTOACK_CREATOR
  }

  function KeysFor(rule: RuleId, orgs: set<OrgId>): set<AckKey> {
    set o | o in orgs :: AckKey(rule, o)
  }

  function RemoveAutoacks(acks: Acks, rule: RuleId): Acks {
    map k | k in acks && !(k.rule == rule && acks[k] == AUTOACK_CREATOR) :: acks[k]
  }

  /** One occurrence of a tag in the content: a tag still waiting to be matched is ticked off,
      any other is added, and adding the autoack tag acknowledges the rule for every org. */
  function TagStep(waiting: set<string>, acks: Acks, rule: RuleId, orgs: set<OrgId>, tag: string): (set<string>, Acks) {
    if tag in waiting then (waiting - {tag}, acks)
    else (waiting, if tag == AUTOACK_TAG then AddAutoacks(acks, rule, orgs) else acks)
  }

  function TagSteps(waiting: set<string>, acks: Acks, rule: RuleId, orgs: set<OrgId>,
      tags: seq<string>): (set<string>, Acks) {
    if tags == [] then (waiting, acks)
    else
      var before := TagSteps(waiting, acks, rule, orgs, tags[..|tags| - 1]);
      TagStep(before.0, before.1, rule, orgs, tags[|tags| - 1])
  }

  /** The acknowledgements after a rule's tags are matched with the content's. */
  function AcksAfter(acks: Acks, rule: RuleId, orgs: set<OrgId>, stored: set<string>, tags: seq<string>): Acks {
    var (left, added) := TagSteps(stored, acks, rule, orgs, tags);
    if AUTOACK_TAG in left then RemoveAutoacks(added, rule) else added
  }

  predicate Repeats(tags: seq<string>, tag: string) {
    exists i, j :: 0 <= i < j < |tags| && tags[i] == tag && tags[j] == tag
  }

  lemma {:induction false} TagStepsExact(waiting: set<string>, acks: Acks, rule: RuleId, orgs: set<OrgId>,
      tags: seq<string>)
    ensures TagSteps(waiting, acks, rule, orgs, tags).0 == waiting - TagSet(tags)
    ensures TagSteps(waiting, acks, rule, orgs, tags).1 ==
            if AUTOACK_TAG in tags && (AUTOACK_TAG !in waiting || Repeats(tags, AUTOACK_TAG))
            then AddAutoacks(acks, rule, orgs) else acks
  {
    if tags != [] {
      var before, last := tags[..|tags| - 1], tags[|tags| - 1];
      TagStepsExact(waiting, acks, rule, orgs, before);
      assert tags == before + [last];
      assert TagSet(tags) == TagSet(before) + {last};
      RepeatsStep(tags, AUTOACK_TAG);
      AutoacksTwice(acks, rule, orgs);
    }
  }

  lemma RepeatsStep(tags: seq<string>, tag: string)
    requires tags != []
    ensures var before := tags[..|tags| - 1];
            Repeats(tags, tag) <==> Repeats(before, tag) || (tag in before && tags[|tags| - 1] == tag)
  {
    var before, n := tags[..|tags| - 1], |tags| - 1;
    if tag in before && tags[n] == tag {
      var i :| 0 <= i < |before| && before[i] == tag;
      assert tags[i] == tag;
    }
    if Repeats(before, tag) {
      var i, j :| 0 <= i < j < |before| && before[i] == tag && before[j] == tag;
      assert tags[i] == tag && tags[j] == tag;
    }
    if Repeats(tags, tag) {
      var i, j :| 0 <= i < j < |tags| && tags[i] == tag && tags[j] == tag;
      assert before[i] == tag;
      if j < n { assert before[j] == tag; }
    }
  }

  lemma AutoacksTwice(acks: Acks, rule: RuleId, orgs: set<OrgId>)
    ensures AddAutoacks(AddAutoacks(acks, rule, orgs), rule, orgs) == AddAutoacks(acks, rule, orgs)
  {
  }

  /** Once the rule's tags are the content's, matching them again changes no acknowledgement. */
  lemma AcksSettle(acks: Acks, rule: RuleId, orgs: set<OrgId>, stored: set<string>, tags: seq<string>)
    ensures var once := AcksAfter(acks, rule, orgs, stored, tags);
            AcksAfter(once, rule, orgs, TagSet(tags), tags) == once
  {
    var once := AcksAfter(acks, rule, orgs, stored, tags);
    TagStepsExact(stored, acks, rule, orgs, tags);
    TagStepsExact(TagSet(tags), once, rule, orgs, tags);
    if Repeats(tags, AUTOACK_TAG) {
      var i, j :| 0 <= i < j < |tags| && tags[i] == AUTOACK_TAG && tags[j] == AUTOACK_TAG;
      assert AUTOACK_TAG in tags;
      AutoacksTwice(acks, rule, orgs);
    }
  }

  /** Acknowledgements that were not made automatically survive, as do those of other rules. */
  lemma AcksSurvive(acks: Acks, rule: RuleId, orgs: set<OrgId>, stored: set<string>, tags: seq<string>)
    ensures forall k :: k in acks && (k.rule != rule || acks[k] != AUTOACK_CREATOR) ==>
              k in AcksAfter(acks, rule, orgs, stored, tags) && AcksAfter(acks, rule, orgs, stored, tags)[k] == acks[k]
    ensures forall k: AckKey :: k.rule != rule ==> SameAt(AcksAfter(acks, rule, orgs, stored, tags), acks, k)
  {
    TagStepsExact(stored, acks, rule, orgs, tags);
    assert forall k :: k in KeysFor(rule, orgs) ==> k.rule == rule;
  }

  /** When the content brings the autoack tag to a rule that lacks it, every org acknowledges
      the rule; when it takes the tag away, no automatic acknowledgement of it is left. */
  lemma AutoackTagEffect(acks: Acks, rule: RuleId, orgs: set<OrgId>, stored: set<string>, tags: seq<string>)
    ensures AUTOACK_TAG in tags && AUTOACK_TAG !in stored ==>
              forall o :: o in orgs ==> AckKey(rule, o) in AcksAfter(acks, rule, orgs, stored, tags)
    ensures AUTOACK_TAG !in tags && AUTOACK_TAG in stored ==>
              forall k :: k in AcksAfter(acks, rule, orgs, stored, tags) && k.rule == rule ==>
                AcksAfter(acks, rule, orgs, stored, tags)[k] != AUTOACK_CREATOR
  {
    TagStepsExact(stored, acks, rule, orgs, tags);
    forall o | o in orgs ensures AckKey(rule, o) in KeysFor(rule, orgs) {}
  }
}
