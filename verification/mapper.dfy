/** `generate_mappings` of `util/mapper.py`: load both documents, build the
    two corpora, leave early when either is empty, select the best
    experiences for every requirement, ask for a reasoning per match, and
    collect the matches into a dict keyed by requirement text, whose items
    `json.dump` writes in insertion order.

    The embedding model and `cos_sim` are replaced by a similarity oracle on
    (requirement text, experience text); the reasoning service and the
    prompt file by the parameters of `GetReasoningForMatch`. Reading the JSON
    files is replaced by optional parsed documents (`None` when the file
    does not exist), and writing the result by the `Saved` outcome. */
module Mapper {
  import opened Basics
  import opened Corpus
  import opened TopK
  import opened Reasoning

  /** The collaborators of one mapping run. */
  datatype Services = Services(
    similarity: (string, string) -> real,
    promptFile: Option<string>,
    chat: ChatRequest -> ChatReply)

  /** One `{"experience": ..., "similarity": ..., "reasoning": ...}` entry;
      the similarity is kept as the score itself. */
  datatype Match = Match(experience: ExperienceItem, similarity: real, reasoning: string)

  datatype DataFile = PersonalDataFile | JobDataFile

  /** The `mappings` dict as its items in insertion order. */
  type Mappings = seq<(string, seq<Match>)>

  /** How a run ends: a data file is missing, one of the corpora is empty
      (nothing is written), or the mappings are written. */
  datatype MappingRun =
    | MissingDataFile(file: DataFile)
    | NoExperiences
    | NoRequirements
    | Saved(mappings: Mappings)

  /** `cosine_scores[i]`: the requirement's score against every snippet. */
  function ScoreRow(requirement: string, corpus: seq<string>, env: Services): (row: seq<real>)
    ensures |row| == |corpus|
  {
    seq(|corpus|, j requires 0 <= j < |corpus| => env.similarity(requirement, corpus[j]))
  }

  /** `experience_map[experience_corpus[idx]]`. */
  function MatchedExperience(p: PersonalData, idx: nat): (e: ExperienceItem)
    requires idx < |ExperienceCorpus(p)|
    ensures e in ExperienceMap(p).Values
    ensures e.text == ExperienceCorpus(p)[idx]
  {
    CorpusTextInMap(p, idx);
    ExperienceMap(p)[ExperienceCorpus(p)[idx]]
  }

  predicate InCorpus(p: PersonalData, sel: seq<nat>)
  {
    forall a :: 0 <= a < |sel| ==> sel[a] < |ExperienceCorpus(p)|
  }

  /** The matches of one requirement, one per selected snippet, in
      selection order. */
  function MatchesFor(p: PersonalData, requirement: string, sel: seq<nat>, env: Services): (ms: seq<Match>)
    requires InCorpus(p, sel)
    ensures |ms| == |sel|
  {
    var row := ScoreRow(requirement, ExperienceCorpus(p), env);
    seq(|sel|, a requires 0 <= a < |sel| =>
      var e := MatchedExperience(p, sel[a]);
      Match(e, row[sel[a]], GetReasoningForMatch(requirement, e, env.promptFile, env.chat)))
  }

  /** The calls of `get_reasoning_for_match` made for one requirement, in order. */
  function CallsFor(p: PersonalData, requirement: string, sel: seq<nat>): (cs: seq<(string, ExperienceItem)>)
    requires InCorpus(p, sel)
    ensures |cs| == |sel|
  {
    seq(|sel|, a requires 0 <= a < |sel| => (requirement, MatchedExperience(p, sel[a])))
  }

  predicate Selections(p: PersonalData, reqs: seq<string>, sels: seq<seq<nat>>)
  {
    |sels| == |reqs| && forall t :: 0 <= t < |sels| ==> InCorpus(p, sels[t])
  }

  function MappingEntries(p: PersonalData, reqs: seq<string>, sels: seq<seq<nat>>, env: Services)
    : seq<(string, seq<Match>)>
    requires Selections(p, reqs, sels)
  {
    seq(|reqs|, t requires 0 <= t < |reqs| => (reqs[t], MatchesFor(p, reqs[t], sels[t], env)))
  }

  function CallGroups(p: PersonalData, reqs: seq<string>, sels: seq<seq<nat>>)
    : seq<seq<(string, ExperienceItem)>>
    requires Selections(p, reqs, sels)
  {
    seq(|reqs|, t requires 0 <= t < |reqs| => CallsFor(p, reqs[t], sels[t]))
  }

  /** A requirement's match list, read against the top-k selection it was
      built from: as many matches as selected snippets, by non-increasing
      similarity, none below a snippet left out, each naming the
      `experience_map` entry of its snippet's text and carrying the
      reasoning obtained for exactly that requirement and experience. */
  lemma MatchesRanked(p: PersonalData, requirement: string, sel: seq<nat>, env: Services, k: nat)
    requires IsTopK(ScoreRow(requirement, ExperienceCorpus(p), env), k, sel)
    ensures InCorpus(p, sel)
    ensures var ms := MatchesFor(p, requirement, sel, env);
            var corpus := ExperienceCorpus(p);
      && |ms| == k
      && (forall a, b :: 0 <= a < b < k ==> ms[a].similarity >= ms[b].similarity)
      && (forall a, j :: 0 <= a < k && 0 <= j < |corpus| && j !in sel ==>
            ms[a].similarity >= env.similarity(requirement, corpus[j]))
      && (forall a :: 0 <= a < k ==>
            && corpus[sel[a]] in ExperienceMap(p)
            && ms[a].experience == ExperienceMap(p)[corpus[sel[a]]]
            && ms[a].experience.text == corpus[sel[a]]
            && ms[a].similarity == env.similarity(requirement, corpus[sel[a]])
            && ms[a].reasoning
               == GetReasoningForMatch(requirement, ms[a].experience, env.promptFile, env.chat))
  {
    var ms := MatchesFor(p, requirement, sel, env);
    var corpus := ExperienceCorpus(p);
    var row := ScoreRow(requirement, corpus, env);
    forall a | 0 <= a < k
      ensures ms[a].similarity == row[sel[a]] == env.similarity(requirement, corpus[sel[a]])
      ensures corpus[sel[a]] in ExperienceMap(p)
      ensures ms[a].experience == ExperienceMap(p)[corpus[sel[a]]]
      ensures ms[a].experience.text == corpus[sel[a]]
      ensures ms[a].reasoning
              == GetReasoningForMatch(requirement, ms[a].experience, env.promptFile, env.chat)
    {
      MatchAt(p, requirement, sel, env, a);
    }
  }

  lemma MatchAt(p: PersonalData, requirement: string, sel: seq<nat>, env: Services, a: nat)
    requires InCorpus(p, sel) && a < |sel|
    ensures var corpus := ExperienceCorpus(p);
            var m := MatchesFor(p, requirement, sel, env)[a];
      && m.experience == MatchedExperience(p, sel[a])
      && corpus[sel[a]] in ExperienceMap(p)
      && m.experience == ExperienceMap(p)[corpus[sel[a]]]
      && m.experience.text == corpus[sel[a]]
      && m.similarity == env.similarity(requirement, corpus[sel[a]])
      && m.reasoning == GetReasoningForMatch(requirement, m.experience, env.promptFile, env.chat)
  {
    CorpusTextInMap(p, sel[a]);
  }

  lemma MatchesForSnoc(p: PersonalData, req: string, sel: seq<nat>, env: Services, j: nat)
    requires InCorpus(p, sel) && j < |sel|
    ensures var e := MatchedExperience(p, sel[j]);
      && MatchesFor(p, req, sel[..j + 1], env)
         == MatchesFor(p, req, sel[..j], env)
            + [Match(e, ScoreRow(req, ExperienceCorpus(p), env)[sel[j]],
                     GetReasoningForMatch(req, e, env.promptFile, env.chat))]
      && CallsFor(p, req, sel[..j + 1]) == CallsFor(p, req, sel[..j]) + [(req, e)]
  {
    assert sel[..j + 1][..j] == sel[..j];
    assert sel[..j + 1][j] == sel[j];
  }

  /** The inner loop of one requirement: select its best snippets, then
      ask for one reasoning per selected snippet, in selection order. */
  method MatchRequirement(p: PersonalData, req: string, env: Services)
    returns (sel: seq<nat>, matches: seq<Match>, reqCalls: seq<(string, ExperienceItem)>)
    requires ExperienceCorpus(p) != []
    ensures IsTopK(ScoreRow(req, ExperienceCorpus(p), env), MatchCount(|ExperienceCorpus(p)|), sel)
    ensures InCorpus(p, sel)
    ensures matches == MatchesFor(p, req, sel, env)
    ensures reqCalls == CallsFor(p, req, sel)
  {
    var corpus := ExperienceCorpus(p);
    var row := ScoreRow(req, corpus, env);
    sel := SelectTopK(row, MatchCount(|corpus|));
    matches := [];
    reqCalls := [];
    var j := 0;
    while j < |sel|
      invariant 0 <= j <= |sel|
      invariant matches == MatchesFor(p, req, sel[..j], env)
      invariant reqCalls == CallsFor(p, req, sel[..j])
    {
      var experience := MatchedExperience(p, sel[j]);
      var reasoning := GetReasoningForMatch(req, experience, env.promptFile, env.chat);
      reqCalls := reqCalls + [(req, experience)];
      matches := matches + [Match(experience, row[sel[j]], reasoning)];
      MatchesForSnoc(p, req, sel, env, j);
      j := j + 1;
    }
    assert sel[..j] == sel;
  }

  /** Every requirement's selection is a top-k selection of its score row. */
  predicate AllTopK(p: PersonalData, reqs: seq<string>, sels: seq<seq<nat>>, env: Services)
  {
    var corpus := ExperienceCorpus(p);
    |sels| == |reqs|
    && forall t :: 0 <= t < |reqs| ==> IsTopK(ScoreRow(reqs[t], corpus, env), MatchCount(|corpus|), sels[t])
  }

  /** One more requirement assigns its matches to its key and appends its
      calls of `get_reasoning_for_match`. */
  lemma MapStep(p: PersonalData, reqs: seq<string>, sels: seq<seq<nat>>, sel: seq<nat>,
                env: Services, i: nat)
    requires i < |reqs|
    requires Selections(p, reqs[..i], sels) && InCorpus(p, sel)
    ensures Selections(p, reqs[..i + 1], sels + [sel])
    ensures OrderedCollect(MappingEntries(p, reqs[..i + 1], sels + [sel], env))
         == Assign(OrderedCollect(MappingEntries(p, reqs[..i], sels, env)), reqs[i], MatchesFor(p, reqs[i], sel, env))
    ensures Concat(CallGroups(p, reqs[..i + 1], sels + [sel]))
         == Concat(CallGroups(p, reqs[..i], sels)) + CallsFor(p, reqs[i], sel)
  {
    var entries := MappingEntries(p, reqs[..i + 1], sels + [sel], env);
    assert reqs[..i + 1][..i] == reqs[..i];
    assert entries[..i] == MappingEntries(p, reqs[..i], sels, env);
    var groups := CallGroups(p, reqs[..i + 1], sels + [sel]);
    assert groups[..i] == CallGroups(p, reqs[..i], sels);
  }

  /** A top-k selection for one more requirement keeps every selection top-k. */
  lemma AllTopKStep(p: PersonalData, reqs: seq<string>, sels: seq<seq<nat>>, sel: seq<nat>,
                    env: Services, i: nat)
    requires i < |reqs| && AllTopK(p, reqs[..i], sels, env)
    requires IsTopK(ScoreRow(reqs[i], ExperienceCorpus(p), env), MatchCount(|ExperienceCorpus(p)|), sel)
    ensures AllTopK(p, reqs[..i + 1], sels + [sel], env)
  {
    assert forall t :: 0 <= t < i ==> reqs[..i + 1][t] == reqs[..i][t] && (sels + [sel])[t] == sels[t];
  }

  /** The outer loop: every requirement in corpus order, its matches
      assigned to `mappings[req]` when there are any. */
  method MapRequirements(p: PersonalData, reqs: seq<string>, env: Services)
    returns (mappings: Mappings, selections: seq<seq<nat>>,
             calls: seq<(string, ExperienceItem)>)
    requires ExperienceCorpus(p) != []
    ensures Selections(p, reqs, selections)
    ensures forall t :: 0 <= t < |reqs| ==>
              IsTopK(ScoreRow(reqs[t], ExperienceCorpus(p), env), MatchCount(|ExperienceCorpus(p)|),
                     selections[t])
    ensures mappings == OrderedCollect(MappingEntries(p, reqs, selections, env))
    ensures calls == Concat(CallGroups(p, reqs, selections))
  {
    var corpus := ExperienceCorpus(p);
    var k := MatchCount(|corpus|);
    mappings := [];
    selections := [];
    calls := [];
    var i := 0;
    while i < |reqs|
      invariant 0 <= i <= |reqs|
      invariant Selections(p, reqs[..i], selections)
      invariant AllTopK(p, reqs[..i], selections, env)
      invariant mappings == OrderedCollect(MappingEntries(p, reqs[..i], selections, env))
      invariant calls == Concat(CallGroups(p, reqs[..i], selections))
    {
      var req := reqs[i];
      var sel, matches, reqCalls := MatchRequirement(p, req, env);
      if |matches| > 0 {
        mappings := Assign(mappings, req, matches);
      }
      calls := calls + reqCalls;
      MapStep(p, reqs, selections, sel, env, i);
      AllTopKStep(p, reqs, selections, sel, env, i);
      selections := selections + [sel];
      i := i + 1;
    }
    assert reqs[..i] == reqs;
    assert AllTopK(p, reqs, selections, env);
  }

  /** The shape of the collected dict: one key per distinct requirement
      text, in the order the texts first occur; the matches of the last
      occurrence of a repeated text; and `k` matches under every key. */
  lemma MappingsShape(p: PersonalData, reqs: seq<string>, sels: seq<seq<nat>>, env: Services, k: nat)
    requires Selections(p, reqs, sels)
    requires forall t :: 0 <= t < |sels| ==> |sels[t]| == k
    ensures var mappings := OrderedCollect(MappingEntries(p, reqs, sels, env));
      && DistinctItemKeys(mappings)
      && (forall t :: 0 <= t < |reqs| ==> reqs[t] in ItemKeys(mappings))
      && FirstOccurrenceOrder(mappings, reqs)
      && (forall i :: 0 <= i < |mappings| ==>
            mappings[i].0 in reqs
            && mappings[i].1 == MatchesFor(p, mappings[i].0, sels[LastIndexOf(reqs, mappings[i].0)], env))
      && (forall i :: 0 <= i < |mappings| ==> |mappings[i].1| == k)
  {
    var entries := MappingEntries(p, reqs, sels, env);
    var mappings := OrderedCollect(entries);
    assert ItemKeys(entries) == reqs;
    OrderedCollectKeySet(entries);
    OrderedCollectOrder(entries);
    OrderedCollectValues(entries);
    assert LastValues(mappings, entries);
  }

  /** Reasoning is asked for once per match: `k` calls per requirement. */
  lemma CallsCount(p: PersonalData, reqs: seq<string>, sels: seq<seq<nat>>, k: nat)
    requires Selections(p, reqs, sels)
    requires forall t :: 0 <= t < |sels| ==> |sels[t]| == k
    ensures |Concat(CallGroups(p, reqs, sels))| == |reqs| * k
  {
    var groups := CallGroups(p, reqs, sels);
    assert forall j :: 0 <= j < |groups| ==> |groups[j]| == k;
    ConcatUniformLength(groups, k);
  }

  /** Position `i` of the call log holds `call`. */
  predicate LoggedAt(calls: seq<(string, ExperienceItem)>, i: int, call: (string, ExperienceItem))
  {
    0 <= i < |calls| && calls[i] == call
  }

  /** The calls are made in order: requirement by requirement, and
      within one requirement in selection order. */
  lemma CallsInOrder(p: PersonalData, reqs: seq<string>, sels: seq<seq<nat>>, k: nat)
    requires Selections(p, reqs, sels)
    requires forall t :: 0 <= t < |sels| ==> |sels[t]| == k
    ensures forall t, a :: 0 <= t < |reqs| && 0 <= a < k ==>
              LoggedAt(Concat(CallGroups(p, reqs, sels)), t * k + a, (reqs[t], MatchedExperience(p, sels[t][a])))
  {
    forall t, a | 0 <= t < |reqs| && 0 <= a < k
      ensures LoggedAt(Concat(CallGroups(p, reqs, sels)), t * k + a, (reqs[t], MatchedExperience(p, sels[t][a])))
    {
      CallAt(p, reqs, sels, k, t, a);
    }
  }

  /** The call for the `a`-th match of the `t`-th requirement comes after
      the `k` calls of each earlier requirement. */
  lemma CallAt(p: PersonalData, reqs: seq<string>, sels: seq<seq<nat>>, k: nat, t: nat, a: nat)
    requires Selections(p, reqs, sels)
    requires forall u :: 0 <= u < |sels| ==> |sels[u]| == k
    requires t < |reqs| && a < k
    ensures LoggedAt(Concat(CallGroups(p, reqs, sels)), t * k + a, (reqs[t], MatchedExperience(p, sels[t][a])))
  {
    var groups := CallGroups(p, reqs, sels);
    assert forall j :: 0 <= j < t ==> |groups[..t][j]| == k;
    ConcatUniformLength(groups[..t], k);
    assert |groups[t]| == k && groups[t][a] == (reqs[t], MatchedExperience(p, sels[t][a]));
    ConcatIndex(groups, t, a);
  }

  /** What a saved run delivers, for a profile `p` and requirement corpus
      `reqs`: with `k` the number of matches kept per requirement (at
      least one), a top-k selection per requirement, one key per distinct
      requirement text in first-occurrence order holding the matches of its
      last occurrence, `k` matches under every key, and exactly one call of
      `get_reasoning_for_match` per match, requirement by requirement, in
      selection order. */
  predicate SavedRun(p: PersonalData, reqs: seq<string>, env: Services, mappings: Mappings,
                     selections: seq<seq<nat>>, calls: seq<(string, ExperienceItem)>)
  {
    var corpus := ExperienceCorpus(p);
    var k := MatchCount(|corpus|);
    && 1 <= k
    && Selections(p, reqs, selections)
    && (forall t :: 0 <= t < |reqs| ==> IsTopK(ScoreRow(reqs[t], corpus, env), k, selections[t]))
    && DistinctItemKeys(mappings)
    && (forall t :: 0 <= t < |reqs| ==> reqs[t] in ItemKeys(mappings))
    && FirstOccurrenceOrder(mappings, reqs)
    && (forall i :: 0 <= i < |mappings| ==>
          mappings[i].0 in reqs
          && mappings[i].1 == MatchesFor(p, mappings[i].0, selections[LastIndexOf(reqs, mappings[i].0)], env))
    && (forall i :: 0 <= i < |mappings| ==> |mappings[i].1| == k)
    && calls == Concat(CallGroups(p, reqs, selections))
    && |calls| == |reqs| * k
    && (forall t, a :: 0 <= t < |reqs| && 0 <= a < k ==>
          LoggedAt(calls, t * k + a, (reqs[t], MatchedExperience(p, selections[t][a]))))
  }

  /** The whole run. Besides the outcome it returns, for the record, the
      selection made for every requirement and every call of
      `get_reasoning_for_match` in the order it was made. */
  method GenerateMappings(personal: Option<PersonalData>, job: Option<JobData>, env: Services)
    returns (run: MappingRun, selections: seq<seq<nat>>, calls: seq<(string, ExperienceItem)>)
    ensures personal.None? ==> run == MissingDataFile(PersonalDataFile)
    ensures personal.Some? && job.None? ==> run == MissingDataFile(JobDataFile)
    ensures personal.Some? && job.Some? && ExperienceCorpus(personal.value) == [] ==> run == NoExperiences
    ensures (personal.Some? && job.Some? && ExperienceCorpus(personal.value) != []
             && RequirementCorpus(job.value) == []) ==> run == NoRequirements
    ensures run.Saved? <==> personal.Some? && job.Some? && ExperienceCorpus(personal.value) != []
                            && RequirementCorpus(job.value) != []
    ensures !run.Saved? ==> selections == [] && calls == []
    ensures run.Saved? ==>
      SavedRun(personal.value, RequirementCorpus(job.value), env, run.mappings, selections, calls)
  {
    selections := [];
    calls := [];
    if personal.None? {
      return MissingDataFile(PersonalDataFile), selections, calls;
    }
    if job.None? {
      return MissingDataFile(JobDataFile), selections, calls;
    }
    var p := personal.value;
    var corpus := ExperienceCorpus(p);
    if |corpus| == 0 {
      return NoExperiences, selections, calls;
    }
    var reqs := RequirementCorpus(job.value);
    if |reqs| == 0 {
      return NoRequirements, selections, calls;
    }
    var mappings;
    mappings, selections, calls := MapRequirements(p, reqs, env);
    MappingsShape(p, reqs, selections, env, MatchCount(|corpus|));
    CallsCount(p, reqs, selections, MatchCount(|corpus|));
    CallsInOrder(p, reqs, selections, MatchCount(|corpus|));
    run := Saved(mappings);
  }

  /** A profile with one work entry, titled "Intern", of two
      responsibilities, and a job with one work-experience requirement. */
  const InternProfile: PersonalData :=
    PersonalData([WorkEntry(Some("Intern"), ["Wrote unit tests", "Fixed bugs"])], [], [])
  const InternLabel: string := "Work Experience: Intern"
  const InternJob: JobData := JobData(Requirements(["Testing experience"], [], []))

  /** Both responsibilities become snippets labelled with the title. */
  lemma InternItems()
    ensures ExperienceItems(InternProfile)
         == [ExperienceItem(InternLabel, "Wrote unit tests"),
             ExperienceItem(InternLabel, "Fixed bugs")]
    ensures ExperienceCorpus(InternProfile) == ["Wrote unit tests", "Fixed bugs"]
    ensures RequirementCorpus(InternJob) == ["Testing experience"]
  {
    var ws := InternProfile.workExperience;
    var items := [ExperienceItem(InternLabel, "Wrote unit tests"),
                  ExperienceItem(InternLabel, "Fixed bugs")];
    WorkGroupsAt(ws, 0, 0);
    WorkGroupsAt(ws, 0, 1);
    assert Render(ws[0].title) == "Intern";
    assert WorkLabel(ws[0]) == InternLabel;
    assert WorkGroups(ws)[0] == items;
    assert WorkGroups(ws) == [items];
    assert [items][..0] == [];
    assert Concat([items]) == items;
    assert Concat(SkillItemGroups([])) == [];
    assert Concat(SkillLists([])) == [];
  }

  /** The example run: the dict has the single key, mapped to both responsibilities, best
      first, each labelled with the entry's title, whatever the scores and
      the reasoning service. */
  lemma InternScenario(env: Services, sel: seq<nat>)
    requires IsTopK(ScoreRow("Testing experience", ExperienceCorpus(InternProfile), env), 2, sel)
    ensures MatchCount(|ExperienceCorpus(InternProfile)|) == 2
    ensures Selections(InternProfile, RequirementCorpus(InternJob), [sel])
    ensures var mappings: Mappings :=
              OrderedCollect(MappingEntries(InternProfile, RequirementCorpus(InternJob), [sel], env));
      && |mappings| == 1
      && mappings[0].0 == "Testing experience"
      && |mappings[0].1| == 2
      && mappings[0].1[0].similarity >= mappings[0].1[1].similarity
      && mappings[0].1[0].experience.source == InternLabel
      && mappings[0].1[1].experience.source == InternLabel
  {
    var p := InternProfile;
    InternItems();
    var reqs := RequirementCorpus(InternJob);
    MatchesRanked(p, "Testing experience", sel, env, 2);
    var ms := MatchesFor(p, "Testing experience", sel, env);
    var entries := MappingEntries(p, reqs, [sel], env);
    assert entries == [("Testing experience", ms)];
    assert entries[..0] == [];
    assert OrderedCollect(entries) == Assign([], "Testing experience", ms);
    forall a | 0 <= a < 2 ensures ms[a].experience.source == InternLabel {
      ExperienceMapLastWins(p, sel[a]);
    }
  }
}
