/** What importing content leaves in the tables, said of the entries and the tables alone. */
module ContentMeaning {
  import opened Tables
  import opened ContentRules
  import opened ContentImport
  import opened ContentReimport

  // ---------- the ruleset of an entry ----------

  /** The ruleset at this place is the first one whose prefix starts the entry's module. */
  predicate FirstPrefix(refs: Refs, e: Entry, i: nat) {
    && i < |refs.rulesets| && refs.rulesets[i].startsWith <= e.pythonModule
    && forall j :: 0 <= j < i ==> !(refs.rulesets[j].startsWith <= e.pythonModule)
  }

  predicate Belongs(refs: Refs, e: Entry, ruleset: string) {
    exists i :: 0 <= i < |refs.rulesets| && FirstPrefix(refs, e, i) && refs.rulesets[i].name == ruleset
  }

  /** An entry is accepted exactly when some prefix starts its module. */
  predicate Starts(refs: Refs, e: Entry) {
    exists i :: 0 <= i < |refs.rulesets| && refs.rulesets[i].startsWith <= e.pythonModule
  }

  lemma {:induction false} FirstRuleset(rulesets: seq<Ruleset>, pythonModule: string) returns (i: nat)
    ensures i <= |rulesets| && forall j :: 0 <= j < i ==> !(rulesets[j].startsWith <= pythonModule)
    ensures i < |rulesets| ==>
              rulesets[i].startsWith <= pythonModule && RulesetOf(rulesets, pythonModule) == Some(rulesets[i].name)
    ensures i == |rulesets| ==> RulesetOf(rulesets, pythonModule) == None
  {
    if rulesets == [] || rulesets[0].startsWith <= pythonModule {
      i := 0;
    } else {
      var k := FirstRuleset(rulesets[1..], pythonModule);
      i := k + 1;
      assert forall j :: 1 <= j < i ==> rulesets[1..][j - 1] == rulesets[j];
    }
  }

  lemma RulesetExactly(refs: Refs, e: Entry, ruleset: string)
    ensures RulesetOf(refs.rulesets, e.pythonModule) == Some(ruleset) <==> Belongs(refs, e, ruleset)
    ensures Accepted(refs, e) <==> Starts(refs, e)
  {
    var i := FirstRuleset(refs.rulesets, e.pythonModule);
    if i < |refs.rulesets| {
      assert FirstPrefix(refs, e, i);
    }
  }

  // ---------- when an entry raises ----------

  /** An accepted entry raises exactly when its category or its impact is unknown, or it has a
      resolution and a risk of which the risk or the system type is unknown, or its rule id is
      stored under another ruleset. */
  lemma RaisesExactly(refs: Refs, st: State, e: Entry)
    ensures Raises(refs, st, e) <==>
              && Starts(refs, e)
              && (|| e.category !in refs.categories
                  || (match e.impact case None => "null" case Some(name) => name) !in refs.impacts
                  || (&& e.resolution.Some? && e.resolutionRisk.Some?
                      && (e.systemType !in refs.systemTypes || e.resolutionRisk.value !in refs.risks))
                  || (e.ruleId in st.rules && !Belongs(refs, e, st.rules[e.ruleId].ruleset)))
  {
    RulesetExactly(refs, e, if e.ruleId in st.rules then st.rules[e.ruleId].ruleset else "");
  }

  // ---------- what one entry writes ----------

  function Blanked(text: Option<string>): string {
    match text case None => "" case Some(t) => t
  }

  /** What the entry decides about its rule's fields, whatever was stored. */
  predicate Decides(refs: Refs, e: Entry, f: Fields) {
    && f.generic == Blanked(e.generic) && f.reason == Blanked(e.reason)
    && f.moreInfo == Blanked(e.moreInfo) && f.nodeId == Blanked(e.nodeId)
    && f.active == (e.isActive && !(refs.disableCve && "cve" in e.tags))
    && f.category == e.category
    && f.impact == (match e.impact case None => "null" case Some(name) => name)
    && f.likelihood == (match e.likelihood case None => 0 case Some(n) => n)
    && f.impact in refs.impacts && f.totalRisk == (f.likelihood + refs.impacts[f.impact]) / 2
    && (e.description.Some? ==> f.description == e.description.value)
    && (e.reboot.Some? ==> f.reboot == e.reboot.value)
    && (e.summary.Some? && e.summary.value != "" ==> f.summary == e.summary.value)
    && (e.publishDate.None? ==> f.publish.None?)
    && (e.publishDate.Some? ==> f.publish.Some? && f.publish.value >= e.publishDate.value)
  }

  /** What else it decides for a rule it creates. */
  predicate Creates(e: Entry, f: Fields) {
    && (e.description.None? ==> f.description == "")
    && (e.reboot.None? ==> !f.reboot)
    && f.summary == (match e.summary case None => f.generic case Some(s) => s)
    && f.publish == e.publishDate
  }

  /** And for one that was stored: what it does not say stays, an empty summary gives way to
      the generic text, and the later of two dates wins. */
  predicate Updates(e: Entry, was: Fields, f: Fields) {
    && (e.description.None? ==> f.description == was.description)
    && (e.reboot.None? ==> f.reboot == was.reboot)
    && (var said := match e.summary case None => was.summary case Some(s) => s;
        f.summary == if said == "" then f.generic else said)
    && (e.publishDate.Some? ==> f.publish == e.publishDate || f.publish == was.publish)
    && (e.publishDate.Some? && was.publish.Some? ==> f.publish.value >= was.publish.value)
  }

  /** The pathway of the entry's component and risk, if it has both and there is one. */
  predicate OnPathway(refs: Refs, e: Entry, pathway: Option<string>) {
    if && e.component.Some? && e.resolutionRisk.Some?
       && (e.component.value, e.resolutionRisk.value) in refs.pathways
    then pathway == Some(refs.pathways[(e.component.value, e.resolutionRisk.value)])
    else pathway == None
  }

  /** Of each kind named by the content there is a playbook if one was stored or the content's is
      complete; a complete one of another version replaces the stored one; no other is left. */
  ghost predicate Plays(content: seq<PlaybookContent>, was: Playbooks, now: Playbooks) {
    && (forall kind :: kind in now <==>
          exists i :: 0 <= i < |content| && content[i].kind == kind && (content[i].complete || kind in was))
    && (forall i :: && 0 <= i < |content| && content[i].kind in now ==>
          var c := content[i];
          if c.complete && !(c.kind in was && was[c.kind].version == c.version)
          then now[c.kind] == Playbook(c.play, c.description, c.path, c.version)
          else c.kind in was && now[c.kind] == was[c.kind])
  }

  /** The resolution for the entry's system type is the entry's, if it has one with a risk; all
      others stay. */
  ghost predicate Resolves(e: Entry, was: map<string, Resolution>, now: map<string, Resolution>) {
    if e.resolution.Some? && e.resolutionRisk.Some?
    then
      && (forall other :: other != e.systemType ==> SameAt(now, was, other))
      && e.systemType in now
      && now[e.systemType].text == e.resolution.value && now[e.systemType].risk == e.resolutionRisk.value
      && Plays(e.playbooks, if e.systemType in was then was[e.systemType].playbooks else map[],
               now[e.systemType].playbooks)
    else now == was
  }

  predicate TwiceIn(tags: seq<string>, tag: string) {
    exists i, j :: 0 <= i < j < |tags| && tags[i] == tag && tags[j] == tag
  }

  /** Every org acknowledges the rule when its content gains the autoack tag, or repeats it; the
      automatic acknowledgements go when its content loses the tag. All others stay. */
  ghost predicate Acknowledges(e: Entry, orgs: set<OrgId>, tags: set<string>, was: Acks, now: Acks) {
    var gained := "autoack" in e.tags && ("autoack" !in tags || TwiceIn(e.tags, "autoack"));
    var lost := "autoack" in tags && "autoack" !in e.tags;
    forall k: AckKey ::
      && (k in now <==>
          || (k in was && !(lost && k.rule == e.ruleId && was[k] == "Red Hat Insights"))
          || (gained && k.rule == e.ruleId && k.org in orgs))
      && (k in now ==> now[k] == if k in was then was[k] else "Red Hat Insights")
  }

  lemma PlaysExactly(was: Playbooks, content: seq<PlaybookContent>)
    requires DistinctKinds(content)
    ensures Plays(content, was, PlaybooksAfter(was, content))
  {
    var now := PlaybooksAfter(was, content);
    forall kind
      ensures kind in now <==>
        exists i :: 0 <= i < |content| && content[i].kind == kind && (content[i].complete || kind in was)
    {
      PutPlaybooksExact(was, content, kind);
      KindNamed(content, kind);
    }
    forall i | 0 <= i < |content| && content[i].kind in now
      ensures var c := content[i];
              if c.complete && !(c.kind in was && was[c.kind].version == c.version)
              then now[c.kind] == Playbook(c.play, c.description, c.path, c.version)
              else c.kind in was && now[c.kind] == was[c.kind]
    {
      PutPlaybooksExact(was, content, content[i].kind);
      if !content[i].complete {
        assert forall j :: 0 <= j < |content| && content[j].kind == content[i].kind ==> j == i;
        assert SameAt(PutPlaybooks(was.Keys, was, content), was, content[i].kind);
      }
    }
  }

  lemma KindNamed(content: seq<PlaybookContent>, kind: string)
    ensures kind in Kinds(content) <==> exists i :: 0 <= i < |content| && content[i].kind == kind
  {
    if exists i :: 0 <= i < |content| && content[i].kind == kind {
      var i :| 0 <= i < |content| && content[i].kind == kind;
      assert content[i] in content;
    }
  }

  lemma ResolvesExactly(e: Entry, was: map<string, Resolution>)
    requires DistinctKinds(e.playbooks)
    ensures Resolves(e, was, ResolutionsAfter(e, was))
  {
    PlaysExactly(if e.systemType in was then was[e.systemType].playbooks else map[], e.playbooks);
  }

  lemma AcknowledgesExactly(e: Entry, orgs: set<OrgId>, tags: set<string>, was: Acks)
    ensures Acknowledges(e, orgs, tags, was, AcksAfter(was, e.ruleId, orgs, tags, e.tags))
  {
    TagStepsExact(tags, was, e.ruleId, orgs, e.tags);
    assert TwiceIn(e.tags, "autoack") <==> Repeats(e.tags, AUTOACK_TAG);
    forall k: AckKey
      ensures k in KeysFor(e.ruleId, orgs) <==> k.rule == e.ruleId && k.org in orgs
    {
      if k.rule == e.ruleId && k.org in orgs {
        assert k == AckKey(e.ruleId, k.org);
      }
    }
  }

  /** The rule is as the entry says and as it was in what the entry leaves open. */
  ghost predicate Written(refs: Refs, e: Entry, was: Option<Rule>, now: Rule) {
    && Belongs(refs, e, now.ruleset) && Decides(refs, e, now.fields) && OnPathway(refs, e, now.pathway)
    && (forall tag :: tag in now.tags <==> tag in e.tags)
    && match was
       case None => Creates(e, now.fields) && Resolves(e, map[], now.resolutions)
       case Some(rule) => Updates(e, rule.fields, now.fields) && Resolves(e, rule.resolutions, now.resolutions)
  }

  lemma RuleExactly(refs: Refs, e: Entry, was: Option<Rule>)
    requires Accepted(refs, e) && Resolvable(refs, e) && DistinctKinds(e.playbooks)
    ensures Written(refs, e, was, RuleAfter(refs, e, was))
  {
    RulesetExactly(refs, e, RulesetOf(refs.rulesets, e.pythonModule).value);
    ResolvesExactly(e, if was.Some? then was.value.resolutions else map[]);
  }

  /** One entry that does not raise: without a ruleset nothing happens; otherwise its rule's row,
      tags, pathway, resolutions, playbooks and acknowledgements are as the entry says, and every
      other rule is left alone. */
  lemma EntryExactly(refs: Refs, orgs: set<OrgId>, st: State, e: Entry)
    requires !Raises(refs, st, e) && DistinctKinds(e.playbooks)
    ensures var now := EntryAfter(refs, orgs, st, e);
            if !Starts(refs, e) then now == st
            else
              && e.ruleId in now.rules
              && Written(refs, e, if e.ruleId in st.rules then Some(st.rules[e.ruleId]) else None, now.rules[e.ruleId])
              && Acknowledges(e, orgs, if e.ruleId in st.rules then st.rules[e.ruleId].tags else {}, st.acks, now.acks)
              && forall other :: other != e.ruleId ==> SameAt(now.rules, st.rules, other)
  {
    RulesetExactly(refs, e, "");
    if Starts(refs, e) {
      RuleExactly(refs, e, Stored(st, e));
      AcknowledgesExactly(e, orgs, if e.ruleId in st.rules then st.rules[e.ruleId].tags else {}, st.acks);
    }
  }

  /** The rule's own row as it is saved first, before anything that goes with it. */
  ghost predicate RowWritten(refs: Refs, e: Entry, was: Option<Rule>, now: Rule) {
    && Belongs(refs, e, now.ruleset) && Decides(refs, e, now.fields)
    && match was
       case None => Creates(e, now.fields) && now.pathway == None && now.tags == {} && now.resolutions == map[]
       case Some(rule) =>
         && Updates(e, rule.fields, now.fields)
         && now.pathway == rule.pathway && now.tags == rule.tags && now.resolutions == rule.resolutions
  }

  lemma RowExactly(refs: Refs, e: Entry, was: Option<Rule>)
    requires Accepted(refs, e) && FieldsResolvable(refs, e)
    ensures RowWritten(refs, e, was, RuleSaved(refs, e, was))
  {
    RulesetExactly(refs, e, RulesetOf(refs.rulesets, e.pythonModule).value);
  }

  /** What is written when an entry raises: nothing, unless only its resolution refers to
      something missing; then its rule's own row is saved, and nothing else. */
  lemma RaisedExactly(refs: Refs, st: State, e: Entry)
    requires Raises(refs, st, e)
    ensures var now := RaisedState(refs, st, e);
            if || e.category !in refs.categories
               || (match e.impact case None => "null" case Some(name) => name) !in refs.impacts
               || (e.ruleId in st.rules && !Belongs(refs, e, st.rules[e.ruleId].ruleset))
            then now == st
            else
              && now.acks == st.acks && (forall other :: other != e.ruleId ==> SameAt(now.rules, st.rules, other))
              && e.ruleId in now.rules
              && RowWritten(refs, e, if e.ruleId in st.rules then Some(st.rules[e.ruleId]) else None,
                   now.rules[e.ruleId])
  {
    RulesetExactly(refs, e, if e.ruleId in st.rules then st.rules[e.ruleId].ruleset else "");
    if FieldsResolvable(refs, e) {
      RowExactly(refs, e, Stored(st, e));
    }
  }

  // ---------- what the whole import leaves ----------

  /** The last entry that starts with some prefix and names the rule. */
  ghost predicate LastFor(refs: Refs, content: seq<Entry>, i: nat) {
    && i < |content| && Starts(refs, content[i])
    && forall j :: i < j < |content| && content[j].ruleId == content[i].ruleId ==> !Starts(refs, content[j])
  }

  /** The rule is as its last entry says. */
  ghost predicate SaidBy(refs: Refs, e: Entry, rule: Rule) {
    && Belongs(refs, e, rule.ruleset) && Decides(refs, e, rule.fields) && OnPathway(refs, e, rule.pathway)
    && (forall tag :: tag in rule.tags <==> tag in e.tags)
    && (e.resolution.Some? && e.resolutionRisk.Some? ==>
          && e.systemType in rule.resolutions
          && rule.resolutions[e.systemType].text == e.resolution.value
          && rule.resolutions[e.systemType].risk == e.resolutionRisk.value
          && (forall i :: 0 <= i < |e.playbooks| && e.playbooks[i].complete ==>
                && e.playbooks[i].kind in rule.resolutions[e.systemType].playbooks
                && rule.resolutions[e.systemType].playbooks[e.playbooks[i].kind].version == e.playbooks[i].version)
          && forall kind :: kind in rule.resolutions[e.systemType].playbooks ==>
               exists i :: 0 <= i < |e.playbooks| && e.playbooks[i].kind == kind)
  }

  lemma EntrySays(refs: Refs, orgs: set<OrgId>, st: State, e: Entry)
    requires !Raises(refs, st, e) && DistinctKinds(e.playbooks) && Starts(refs, e)
    ensures e.ruleId in EntryAfter(refs, orgs, st, e).rules
    ensures SaidBy(refs, e, EntryAfter(refs, orgs, st, e).rules[e.ruleId])
  {
    EntryExactly(refs, orgs, st, e);
    if e.resolution.Some? && e.resolutionRisk.Some? {
      var now := EntryAfter(refs, orgs, st, e).rules[e.ruleId].resolutions;
      var was := if e.ruleId in st.rules then st.rules[e.ruleId].resolutions else map[];
      var stored := if e.systemType in was then was[e.systemType].playbooks else map[];
      assert Plays(e.playbooks, stored, now[e.systemType].playbooks);
    }
  }

  lemma {:induction false} LastEntrySays(refs: Refs, orgs: set<OrgId>, st: State, content: seq<Entry>, i: nat)
    requires EntriesAfter(refs, orgs, st, content).Some? && DistinctPlaybooks(refs, content)
    requires LastFor(refs, content, i)
    ensures var now := EntriesAfter(refs, orgs, st, content).value.0;
            content[i].ruleId in now.rules && SaidBy(refs, content[i], now.rules[content[i].ruleId])
    decreases |content|
  {
    var n, before := |content| - 1, content[..|content| - 1];
    var mid := EntriesAfter(refs, orgs, st, before).value.0;
    RulesetExactly(refs, content[n], "");
    if i < n {
      assert before[i] == content[i] && forall j :: i < j < n ==> before[j] == content[j];
      LastEntrySays(refs, orgs, st, before, i);
      OthersLeft(refs, orgs, mid, content[n], content[i].ruleId);
    } else {
      EntrySays(refs, orgs, mid, content[n]);
    }
  }

  /** After a successful import every rule is as its last entry says: active exactly when the
      entry is and is not a CVE rule under the switch, with half the sum of its likelihood and
      its impact's number, rounded down, as its total risk, and with the entry's own texts. */
  lemma ImportedExactly(refs: Refs, orgs: set<OrgId>, st: State, content: seq<Entry>, i: nat)
    requires refs.rulesets != [] && Import(refs, orgs, st, content).Some? && DistinctPlaybooks(refs, content)
    requires LastFor(refs, content, i) && content[i].ruleId != ""
    ensures var once, e := Import(refs, orgs, st, content).value.0, content[i];
            && e.ruleId in once.rules && SaidBy(refs, e, once.rules[e.ruleId])
            && once.rules[e.ruleId].fields.active == (e.isActive && !(refs.disableCve && "cve" in e.tags))
            && once.rules[e.ruleId].fields.generic == Blanked(e.generic)
  {
    ImportSteps(refs, orgs, st, content);
    LastEntrySays(refs, orgs, st, content, i);
    assert content[i] in content;
  }

  /** The last entry of a rule with a description; the last with a reboot flag. */
  ghost predicate LastDescribing(refs: Refs, content: seq<Entry>, i: nat) {
    && i < |content| && Starts(refs, content[i]) && content[i].description.Some?
    && forall j :: && i < j < |content| && content[j].ruleId == content[i].ruleId && Starts(refs, content[j]) ==>
         content[j].description.None?
  }

  ghost predicate LastFlagging(refs: Refs, content: seq<Entry>, i: nat) {
    && i < |content| && Starts(refs, content[i]) && content[i].reboot.Some?
    && forall j :: && i < j < |content| && content[j].ruleId == content[i].ruleId && Starts(refs, content[j]) ==>
         content[j].reboot.None?
  }

  /** What an entry leaves of another text and flag. */
  lemma UnsaidStays(refs: Refs, orgs: set<OrgId>, st: State, e: Entry, r: RuleId)
    requires !Raises(refs, st, e) && r in st.rules
    ensures r in EntryAfter(refs, orgs, st, e).rules
    ensures var was, now := st.rules[r].fields, EntryAfter(refs, orgs, st, e).rules[r].fields;
            && (e.ruleId != r || !Starts(refs, e) || e.description.None? ==> now.description == was.description)
            && (e.ruleId != r || !Starts(refs, e) || e.reboot.None? ==> now.reboot == was.reboot)
  {
    RulesetExactly(refs, e, "");
    if Starts(refs, e) && e.ruleId == r {
      RowExactly(refs, e, Stored(st, e));
    }
  }

  /** A description and a reboot flag that a rule's last entry leaves out are those of the last
      entry that has one, whatever was stored before. */
  lemma {:induction false} LastSaidStays(refs: Refs, orgs: set<OrgId>, st: State, content: seq<Entry>, i: nat)
    requires EntriesAfter(refs, orgs, st, content).Some? && i < |content| && Starts(refs, content[i])
    ensures content[i].ruleId in EntriesAfter(refs, orgs, st, content).value.0.rules
    ensures var f := EntriesAfter(refs, orgs, st, content).value.0.rules[content[i].ruleId].fields;
            && (LastDescribing(refs, content, i) ==> content[i].description == Some(f.description))
            && (LastFlagging(refs, content, i) ==> content[i].reboot == Some(f.reboot))
    decreases |content|
  {
    var n, before, e := |content| - 1, content[..|content| - 1], content[i];
    var mid := EntriesAfter(refs, orgs, st, before).value.0;
    if i < n {
      assert before[i] == e && forall j :: i < j < n ==> before[j] == content[j];
      LastSaidStays(refs, orgs, st, before, i);
      UnsaidStays(refs, orgs, mid, content[n], e.ruleId);
    } else {
      RulesetExactly(refs, e, "");
      RowExactly(refs, e, Stored(mid, e));
    }
  }

  /** The rules after an import: those named by the content that were stored or have an entry
      with a ruleset. */
  lemma RulesExactly(refs: Refs, orgs: set<OrgId>, st: State, content: seq<Entry>, r: RuleId)
    requires refs.rulesets != [] && Import(refs, orgs, st, content).Some?
    ensures r in Import(refs, orgs, st, content).value.0.rules <==>
              && r != ""
              && (exists i :: 0 <= i < |content| && content[i].ruleId == r)
              && (r in st.rules || exists i :: 0 <= i < |content| && content[i].ruleId == r && Starts(refs, content[i]))
  {
    ImportSteps(refs, orgs, st, content);
    KnownExactly(refs, orgs, st, content, r);
    if exists i :: 0 <= i < |content| && content[i].ruleId == r {
      var i :| 0 <= i < |content| && content[i].ruleId == r;
      assert content[i] in content;
    }
  }

  lemma {:induction false} KnownExactly(refs: Refs, orgs: set<OrgId>, st: State, content: seq<Entry>, r: RuleId)
    requires EntriesAfter(refs, orgs, st, content).Some?
    ensures r in EntriesAfter(refs, orgs, st, content).value.0.rules <==>
              r in st.rules || exists i :: 0 <= i < |content| && content[i].ruleId == r && Starts(refs, content[i])
  {
    if content != [] {
      var n, before := |content| - 1, content[..|content| - 1];
      KnownExactly(refs, orgs, st, before, r);
      RulesetExactly(refs, content[n], "");
      assert forall i :: 0 <= i < n ==> before[i] == content[i];
    }
  }

  function Started(refs: Refs, content: seq<Entry>): set<RuleId> {
    set e | e in content && Starts(refs, e) :: e.ruleId
  }

  /** One entry is counted as added when its rule is new, as updated when it changes the rule's
      fields, and as the same when it does not. */
  lemma CountedByEffect(refs: Refs, orgs: set<OrgId>, st: State, stats: Stats, e: Entry)
    requires !Raises(refs, st, e)
    ensures var now, counted := EntryAfter(refs, orgs, st, e).rules, Count(refs, st, stats, e);
            if !Starts(refs, e) then counted == stats
            else if e.ruleId !in st.rules
            then counted == Stats(stats.added + 1, stats.updated, stats.same, stats.deleted)
            else if e.ruleId in now && now[e.ruleId].fields != st.rules[e.ruleId].fields
            then counted == Stats(stats.added, stats.updated + 1, stats.same, stats.deleted)
            else counted == Stats(stats.added, stats.updated, stats.same + 1, stats.deleted)
  {
    RulesetExactly(refs, e, "");
  }

  /** The import counts each new rule once as added, and as deleted the rules the content does not
      name. */
  lemma CountedExactly(refs: Refs, orgs: set<OrgId>, st: State, content: seq<Entry>)
    requires refs.rulesets != [] && Import(refs, orgs, st, content).Some?
    ensures var r, started := Import(refs, orgs, st, content).value, Started(refs, content);
            && r.1.added == |started - st.rules.Keys|
            && r.1.deleted == |st.rules.Keys + started - ContentIds(content)|
            && |r.0.rules| == |st.rules| + r.1.added - r.1.deleted
  {
    ImportCounts(refs, orgs, st, content);
    AddedExactly(refs, orgs, st, content);
    StoredOrStarted(refs, orgs, st, content);
    CountsBalance(st, EntriesAfter(refs, orgs, st, content).value.0, Started(refs, content), ContentIds(content));
  }

  lemma ImportCounts(refs: Refs, orgs: set<OrgId>, st: State, content: seq<Entry>)
    requires refs.rulesets != [] && Import(refs, orgs, st, content).Some?
    ensures EntriesAfter(refs, orgs, st, content).Some?
    ensures var (imported, stats) := EntriesAfter(refs, orgs, st, content).value;
            Import(refs, orgs, st, content).value ==
            (DeleteExtra(imported, ContentIds(content)),
             Stats(stats.added, stats.updated, stats.same, |imported.rules.Keys - ContentIds(content)|))
  {
  }

  lemma CountsBalance(st: State, imported: State, started: set<RuleId>, ids: set<RuleId>)
    requires forall r :: r in imported.rules <==> r in st.rules.Keys + started
    ensures |imported.rules.Keys - ids| == |st.rules.Keys + started - ids|
    ensures |DeleteExtra(imported, ids).rules| ==
            |st.rules| + |started - st.rules.Keys| - |st.rules.Keys + started - ids|
  {
    assert imported.rules.Keys == st.rules.Keys + started;
    KeptKeys(imported, ids);
    Balance(st.rules.Keys, started, ids);
    CountIsSize(DeleteExtra(imported, ids).rules);
    CountIsSize(st.rules);
  }

  lemma KeptKeys(st: State, ids: set<RuleId>)
    ensures DeleteExtra(st, ids).rules.Keys == st.rules.Keys * ids
  {
  }

  lemma CountIsSize(rules: map<RuleId, Rule>)
    ensures |rules| == |rules.Keys|
  {
  }

  /** What is stored and started less what is not named, on plain sets. */
  lemma Balance(stored: set<RuleId>, started: set<RuleId>, ids: set<RuleId>)
    ensures |(stored + started) * ids| == |stored| + |started - stored| - |(stored + started) - ids|
  {
    assert stored + started == stored + (started - stored);
    assert stored + started == (stored + started) * ids + ((stored + started) - ids);
  }

  lemma EntryAdds(refs: Refs, st: State, stats: Stats, e: Entry)
    requires !Raises(refs, st, e)
    ensures Count(refs, st, stats, e).added ==
            stats.added + if Accepted(refs, e) && e.ruleId !in st.rules then 1 else 0
  {
  }

  lemma StartedStep(refs: Refs, before: seq<Entry>, e: Entry)
    ensures Started(refs, before + [e]) == Started(refs, before) + if Accepted(refs, e) then {e.ruleId} else {}
  {
    RulesetExactly(refs, e, "");
    assert forall other :: other in before + [e] <==> other in before || other == e;
  }

  /** One more rule, on plain sets. */
  lemma OneMore(known: set<RuleId>, before: set<RuleId>, r: RuleId)
    ensures |before + {r} - known| == |before - known| + if r in known + before then 0 else 1
  {
    if r in known + before {
      assert before + {r} - known == before - known;
    } else {
      assert before + {r} - known == (before - known) + {r};
    }
  }

  lemma StoredOrStarted(refs: Refs, orgs: set<OrgId>, st: State, content: seq<Entry>)
    requires EntriesAfter(refs, orgs, st, content).Some?
    ensures forall r :: r in EntriesAfter(refs, orgs, st, content).value.0.rules <==>
              r in st.rules.Keys + Started(refs, content)
  {
    forall r ensures r in EntriesAfter(refs, orgs, st, content).value.0.rules <==>
                       r in st.rules.Keys + Started(refs, content)
    {
      KnownExactly(refs, orgs, st, content, r);
      StartedMeans(refs, content, r);
    }
  }

  lemma StartedMeans(refs: Refs, content: seq<Entry>, r: RuleId)
    ensures r in Started(refs, content) <==>
              exists i :: 0 <= i < |content| && content[i].ruleId == r && Starts(refs, content[i])
  {
    if exists i :: 0 <= i < |content| && content[i].ruleId == r && Starts(refs, content[i]) {
      var i :| 0 <= i < |content| && content[i].ruleId == r && Starts(refs, content[i]);
      assert content[i] in content;
    }
  }

  /** One more entry, on a count that is right before it. */
  lemma AddedStep(refs: Refs, st: State, stats: Stats, e: Entry, known: set<RuleId>, before: set<RuleId>)
    requires !Raises(refs, st, e) && stats.added == |before - known|
    requires forall r :: r in st.rules <==> r in known + before
    ensures Count(refs, st, stats, e).added == |before + (if Accepted(refs, e) then {e.ruleId} else {}) - known|
  {
    EntryAdds(refs, st, stats, e);
    OneMore(known, before, e.ruleId);
    assert before + {} == before;
  }

  lemma {:induction false} AddedExactly(refs: Refs, orgs: set<OrgId>, st: State, content: seq<Entry>)
    requires EntriesAfter(refs, orgs, st, content).Some?
    ensures EntriesAfter(refs, orgs, st, content).value.1.added == |Started(refs, content) - st.rules.Keys|
  {
    if content == [] {
      assert Started(refs, content) == {};
    } else {
      var before, e := content[..|content| - 1], content[|content| - 1];
      AddedExactly(refs, orgs, st, before);
      StoredOrStarted(refs, orgs, st, before);
      var r := EntriesAfter(refs, orgs, st, before).value;
      AddedStep(refs, r.0, r.1, e, st.rules.Keys, Started(refs, before));
      assert content == before + [e];
      StartedStep(refs, before, e);
    }
  }

  // ---------- the CVE switch at work ----------

  /** Under the switch an active entry with the tag "cve" makes an inactive rule; without the
      switch it makes an active one. */
  lemma SwitchDeactivates(refs: Refs, orgs: set<OrgId>, st: State, e: Entry)
    requires Starts(refs, e) && !Raises(refs, st, e) && e.isActive && "cve" in e.tags && e.playbooks == []
    ensures e.ruleId in EntryAfter(refs, orgs, st, e).rules
    ensures EntryAfter(refs, orgs, st, e).rules[e.ruleId].fields.active == !refs.disableCve
  {
    EntryExactly(refs, orgs, st, e);
  }
}
