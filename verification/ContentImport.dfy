/** Importing a whole list of rule content, and importing it again. */
module ContentImport {
  import opened Tables
  import opened ContentRules

  datatype State = State(rules: map<RuleId, Rule>, acks: Acks)

  datatype Stats = Stats(added: nat, updated: nat, same: nat, deleted: nat)

  const ZERO := Stats(0, 0, 0, 0)

  /** The rule's own row once its fields are saved. */
  function RuleSaved(refs: Refs, e: Entry, was: Option<Rule>): Rule
    requires Accepted(refs, e) && FieldsResolvable(refs, e)
  {
    var ruleset := RulesetOf(refs.rulesets, e.pythonModule).value;
    match was
    case None => Rule(ruleset, CreatedFields(refs, e), None, {}, map[])
    case Some(rule) => rule.(ruleset := ruleset, fields := UpdatedFields(refs, e, rule.fields))
  }

  function RuleAfter(refs: Refs, e: Entry, was: Option<Rule>): Rule
    requires Accepted(refs, e) && Resolvable(refs, e)
  {
    var saved := RuleSaved(refs, e, was);
    Rule(saved.ruleset, saved.fields, PathwayOf(refs, e), TagSet(e.tags), ResolutionsAfter(e, saved.resolutions))
  }

  function Stored(st: State, e: Entry): Option<Rule> {
    if e.ruleId in st.rules then Some(st.rules[e.ruleId]) else None
  }

  /** The entry raises: it refers to something that does not exist, or its rule id is already
      taken in another ruleset. */
  predicate Raises(refs: Refs, st: State, e: Entry) {
    && Accepted(refs, e)
    && (!Resolvable(refs, e)
        || (e.ruleId in st.rules && st.rules[e.ruleId].ruleset != RulesetOf(refs.rulesets, e.pythonModule).value))
  }

  /** What an entry has written when it raises: nothing, unless only its resolution refers to
      something that does not exist; the rule's own row is saved before that is found out. */
  function RaisedState(refs: Refs, st: State, e: Entry): State
    requires Raises(refs, st, e)
  {
    if !FieldsResolvable(refs, e)
       || (e.ruleId in st.rules && st.rules[e.ruleId].ruleset != RulesetOf(refs.rulesets, e.pythonModule).value) then st
    else st.(rules := st.rules[e.ruleId := RuleSaved(refs, e, Stored(st, e))])
  }

  function EntryAfter(refs: Refs, orgs: set<OrgId>, st: State, e: Entry): State
    requires !Raises(refs, st, e)
  {
    if !Accepted(refs, e) then st
    else
      var tags := if e.ruleId in st.rules then st.rules[e.ruleId].tags else {};
      State(st.rules[e.ruleId := RuleAfter(refs, e, Stored(st, e))],
            AcksAfter(st.acks, e.ruleId, orgs, tags, e.tags))
  }

  function Count(refs: Refs, st: State, stats: Stats, e: Entry): Stats
    requires !Raises(refs, st, e)
  {
    if !Accepted(refs, e) then stats
    else if e.ruleId !in st.rules then stats.(added := stats.added + 1)
    else if UpdatedFields(refs, e, st.rules[e.ruleId].fields) != st.rules[e.ruleId].fields
    then stats.(updated := stats.updated + 1)
    else stats.(same := stats.same + 1)
  }

  /** Import the entries in order; None when one of them raises. */
  function EntriesAfter(refs: Refs, orgs: set<OrgId>, st: State, content: seq<Entry>): Option<(State, Stats)> {
    if content == [] then Some((st, ZERO))
    else
      match EntriesAfter(refs, orgs, st, content[..|content| - 1])
      case None => None
      case Some(before) =>
        var e := content[|content| - 1];
        if Raises(refs, before.0, e) then None
        else Some((EntryAfter(refs, orgs, before.0, e), Count(refs, before.0, before.1, e)))
  }

  function ContentIds(content: seq<Entry>): set<RuleId> {
    set e | e in content && e.ruleId != "" :: e.ruleId
  }

  /** Delete the rules outside the content, and with them their acknowledgements. */
  function DeleteExtra(st: State, ids: set<RuleId>): State {
    State(map r | r in st.rules && r in ids :: st.rules[r],
          map k | k in st.acks && !(k.rule in st.rules && k.rule !in ids) :: st.acks[k])
  }

  function Import(refs: Refs, orgs: set<OrgId>, st: State, content: seq<Entry>): Option<(State, Stats)> {
    if refs.rulesets == [] then Some((st, ZERO))
    else
      match EntriesAfter(refs, orgs, st, content)
      case None => None
      case Some(r) =>
        var ids := ContentIds(content);
        Some((DeleteExtra(r.0, ids), r.1.(deleted := |r.0.rules.Keys - ids|)))
  }

  // ---------- the importer ----------

  class ContentStore {
    var rules: map<RuleId, Rule>
    var acks: Acks

    function Contents(): State
      reads this
    {
      State(rules, acks)
    }

    constructor (st: State)
      ensures Contents() == st
    {
      rules, acks := st.rules, st.acks;
    }

    /** The whole import. When an entry raises, the ones before it stay imported, and so does
        what it has written itself; reached is its place. */
    method UpdateRulesetWithContent(refs: Refs, orgs: set<OrgId>, content: seq<Entry>)
      returns (ok: bool, stats: Stats, ghost reached: nat)
      modifies this
      ensures ok <==> Import(refs, orgs, old(Contents()), content).Some?
      ensures ok ==> Import(refs, orgs, old(Contents()), content) == Some((Contents(), stats))
      ensures !ok ==> reached < |content| && EntriesAfter(refs, orgs, old(Contents()), content[..reached]).Some?
      ensures !ok ==>
                var before := EntriesAfter(refs, orgs, old(Contents()), content[..reached]).value.0;
                Raises(refs, before, content[reached]) && Contents() == RaisedState(refs, before, content[reached])
    {
      stats, reached := ZERO, 0;
      if refs.rulesets == [] {
        return true, stats, 0;
      }
      for i := 0 to |content|
        invariant EntriesAfter(refs, orgs, old(Contents()), content[..i]) == Some((Contents(), stats))
      {
        assert content[..i + 1][..i] == content[..i];
        var imported, stats' := ImportEntry(refs, orgs, content[i], stats);
        if !imported {
          RaiseLasts(refs, orgs, old(Contents()), content, i + 1);
          return false, stats, i;
        }
        stats := stats';
      }
      assert content[..|content|] == content;
      var deleted := DeleteRules(ContentIds(content));
      stats := stats.(deleted := deleted);
      return true, stats, |content|;
    }

    /** One entry: its rule's row, its resolution and playbooks, then its tags. */
    method ImportEntry(refs: Refs, orgs: set<OrgId>, e: Entry, stats: Stats) returns (ok: bool, stats': Stats)
      modifies this
      ensures ok <==> !Raises(refs, old(Contents()), e)
      ensures ok ==> Contents() == EntryAfter(refs, orgs, old(Contents()), e)
      ensures ok ==> stats' == Count(refs, old(Contents()), stats, e)
      ensures !ok ==> Contents() == RaisedState(refs, old(Contents()), e)
    {
      if !Accepted(refs, e) {
        return true, stats;
      }
      var was := Stored(Contents(), e);
      var ruleset := RulesetOf(refs.rulesets, e.pythonModule).value;
      if !FieldsResolvable(refs, e) || (was.Some? && was.value.ruleset != ruleset) {
        return false, stats;
      }
      var rule := RuleSaved(refs, e, was);
      stats' := SaveRule(e.ruleId, was, rule, stats);
      var resolved, resolutions := SaveResolution(refs, e, rule.resolutions);
      if !resolved {
        return false, stats;
      }
      MatchTags(e.ruleId, orgs, rule.tags, e.tags);
      rules := rules[e.ruleId := Rule(
        ruleset, rule.fields, PathwayOf(refs, e), TagSet(e.tags), resolutions)];
      return true, stats';
    }

    /** Save the rule's own row, and count it. */
    method SaveRule(id: RuleId, was: Option<Rule>, rule: Rule, stats: Stats) returns (stats': Stats)
      modifies this`rules
      ensures rules == old(rules)[id := rule]
      ensures stats' == if was.None? then stats.(added := stats.added + 1)
                        else if was.value.fields != rule.fields then stats.(updated := stats.updated + 1)
                        else stats.(same := stats.same + 1)
    {
      rules := rules[id := rule];
      if was.None? {
        return stats.(added := stats.added + 1);
      } else if was.value.fields != rule.fields {
        return stats.(updated := stats.updated + 1);
      } else {
        return stats.(same := stats.same + 1);
      }
    }

    /** The loop over the content's tags, then the tags only the rule had. */
    method MatchTags(rule: RuleId, orgs: set<OrgId>, stored: set<string>, tags: seq<string>)
      modifies this`acks
      ensures acks == AcksAfter(old(acks), rule, orgs, stored, tags)
    {
      var tagsOnlyInModel := stored;
      for i := 0 to |tags|
        invariant TagSteps(stored, old(acks), rule, orgs, tags[..i]) == (tagsOnlyInModel, acks)
      {
        assert tags[..i + 1][..i] == tags[..i];
        if tags[i] in tagsOnlyInModel {
          tagsOnlyInModel := tagsOnlyInModel - {tags[i]};
        } else if tags[i] == AUTOACK_TAG {
          acks := AddAutoacks(acks, rule, orgs);
        }
      }
      assert tags[..|tags|] == tags;
      if AUTOACK_TAG in tagsOnlyInModel {
        acks := RemoveAutoacks(acks, rule);
      }
    }

    /** The loop that deletes rules found only in the database. */
    method DeleteRules(ids: set<RuleId>) returns (deleted: nat)
      modifies this
      ensures Contents() == DeleteExtra(old(Contents()), ids)
      ensures deleted == |old(rules).Keys - ids|
    {
      deleted := 0;
      var extra := rules.Keys - ids;
      ghost var st, gone := Contents(), {};
      WithoutNone(st);
      while extra != {}
        invariant extra !! gone && extra + gone == st.rules.Keys - ids && deleted == |gone|
        invariant Contents() == Without(st, gone)
      {
        var rule :| rule in extra;
        DeleteRule(rule);
        WithoutStep(st, gone, rule);
        extra, gone, deleted := extra - {rule}, gone + {rule}, deleted + 1;
      }
      AllDeleted(st, ids, gone);
    }

    /** Deleting a rule deletes its acknowledgements with it. */
    method DeleteRule(rule: RuleId)
      modifies this
      ensures Contents() == Without(old(Contents()), {rule})
    {
      rules := rules - {rule};
      acks := map k | k in acks && k.rule !in {rule} :: acks[k];
    }
  }

  /** Create or update the resolution of an entry that has one, with its playbooks. */
  method SaveResolution(refs: Refs, e: Entry, stored: map<string, Resolution>)
    returns (ok: bool, resolutions: map<string, Resolution>)
    requires FieldsResolvable(refs, e)
    ensures ok <==> Resolvable(refs, e)
    ensures ok ==> resolutions == ResolutionsAfter(e, stored)
  {
    if e.resolution.None? || e.resolutionRisk.None? {
      return true, stored;
    }
    if e.systemType !in refs.systemTypes || e.resolutionRisk.value !in refs.risks {
      return false, stored;
    }
    var playbooks := UpdatePlaybookModels(
      if e.systemType in stored then stored[e.systemType].playbooks else map[], e.playbooks);
    return true, stored[e.systemType := Resolution(e.resolution.value, e.resolutionRisk.value, playbooks)];
  }

  /** The loop over one resolution's playbook content, then the removal of the kinds the
      content no longer has. */
  method UpdatePlaybookModels(stored: Playbooks, content: seq<PlaybookContent>) returns (playbooks: Playbooks)
    ensures playbooks == PlaybooksAfter(stored, content)
  {
    playbooks := stored;
    for i := 0 to |content|
      invariant playbooks == PutPlaybooks(stored.Keys, stored, content[..i])
      invariant stored.Keys <= playbooks.Keys
    {
      assert content[..i + 1][..i] == content[..i];
      var c := content[i];
      if !c.complete {
        continue;
      }
      if c.kind in stored {
        if playbooks[c.kind].version != c.version {
          playbooks := playbooks[c.kind := PlaybookOf(c)];
        }
      } else {
        playbooks := playbooks[c.kind := PlaybookOf(c)];
      }
    }
    assert content[..|content|] == content;
    playbooks := playbooks - (stored.Keys - Kinds(content));
  }

  ghost function Without(st: State, gone: set<RuleId>): State {
    State(st.rules - gone, map k | k in st.acks && k.rule !in gone :: st.acks[k])
  }

  lemma WithoutNone(st: State)
    ensures Without(st, {}) == st
  {
  }

  lemma WithoutStep(st: State, gone: set<RuleId>, rule: RuleId)
    ensures Without(Without(st, gone), {rule}) == Without(st, gone + {rule})
  {
  }

  lemma AllDeleted(st: State, ids: set<RuleId>, gone: set<RuleId>)
    requires gone == st.rules.Keys - ids
    ensures Without(st, gone) == DeleteExtra(st, ids)
  {
  }

  lemma {:induction false} RaiseLasts(refs: Refs, orgs: set<OrgId>, st: State, content: seq<Entry>, i: nat)
    requires i <= |content| && EntriesAfter(refs, orgs, st, content[..i]).None?
    ensures EntriesAfter(refs, orgs, st, content).None?
    decreases |content|
  {
    if i == |content| {
      assert content[..i] == content;
    } else {
      assert content[..|content| - 1][..i] == content[..i];
      RaiseLasts(refs, orgs, st, content[..|content| - 1], i);
    }
  }
}
