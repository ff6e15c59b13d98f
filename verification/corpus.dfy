/** The corpus builder of `util/mapper.py`: the applicant's personal data is
    flattened into one ordered list of labelled experience snippets, and the
    job's requirements into one ordered list of requirement strings. The
    parsed JSON documents are modelled as datatypes; a key absent from the
    JSON is an empty list, or `None` for a scalar field. */
module Corpus {
  import opened Basics

  /** One `workExperience` entry: its `title` and `responsibilities`. */
  datatype WorkEntry = WorkEntry(title: Option<string>, responsibilities: seq<string>)

  /** One `projects` entry: its `name` and `description`. */
  datatype Project = Project(name: Option<string>, description: Option<string>)

  /** One `category: [skill, ...]` pair of a `skills` object, in the
      object's key order. */
  datatype SkillGroup = SkillGroup(category: string, skills: seq<string>)

  /** The applicant's structured personal data. */
  datatype PersonalData = PersonalData(
    workExperience: seq<WorkEntry>,
    projects: seq<Project>,
    skills: seq<SkillGroup>)

  /** The `requirements` object of the job data. */
  datatype Requirements = Requirements(
    workExperience: seq<string>,
    education: seq<string>,
    skills: seq<SkillGroup>)

  /** The job's structured data. */
  datatype JobData = JobData(requirements: Requirements)

  /** A labelled snippet: the `{"source": ..., "text": ...}` dict. */
  datatype ExperienceItem = ExperienceItem(source: string, text: string)

  /** How an f-string renders an optional JSON string: absent is `None`. */
  function Render(v: Option<string>): string
  {
    match v
    case Some(s) => s
    case None => "None"
  }

  function WorkLabel(w: WorkEntry): string
  {
    "Work Experience: " + Render(w.title)
  }

  function ProjectLabel(p: Project): string
  {
    "Project: " + Render(p.name)
  }

  function SkillLabel(g: SkillGroup): string
  {
    "Skill: " + g.category
  }

  /** A project's description, `""` when the key is absent. */
  function ProjectText(p: Project): string
  {
    match p.description
    case Some(d) => d
    case None => ""
  }

  // ---------------------------------------------------------------------
  // The experience corpus

  function WorkGroup(w: WorkEntry): seq<ExperienceItem>
  {
    seq(|w.responsibilities|, k requires 0 <= k < |w.responsibilities| =>
      ExperienceItem(WorkLabel(w), w.responsibilities[k]))
  }

  function WorkGroups(ws: seq<WorkEntry>): seq<seq<ExperienceItem>>
  {
    seq(|ws|, j requires 0 <= j < |ws| => WorkGroup(ws[j]))
  }

  function ProjectItems(ps: seq<Project>): seq<ExperienceItem>
  {
    seq(|ps|, i requires 0 <= i < |ps| => ExperienceItem(ProjectLabel(ps[i]), ProjectText(ps[i])))
  }

  function SkillGroupItems(g: SkillGroup): seq<ExperienceItem>
  {
    seq(|g.skills|, s requires 0 <= s < |g.skills| => ExperienceItem(SkillLabel(g), g.skills[s]))
  }

  function SkillItemGroups(gs: seq<SkillGroup>): seq<seq<ExperienceItem>>
  {
    seq(|gs|, c requires 0 <= c < |gs| => SkillGroupItems(gs[c]))
  }

  /** Every snippet of the applicant, in the order the three loops of
      `generate_mappings` append them. */
  function ExperienceItems(p: PersonalData): seq<ExperienceItem>
  {
    Concat(WorkGroups(p.workExperience))
    + ProjectItems(p.projects)
    + Concat(SkillItemGroups(p.skills))
  }

  /** `experience_corpus`: the snippet texts, in order. */
  function ExperienceCorpus(p: PersonalData): seq<string>
  {
    var items := ExperienceItems(p);
    seq(|items|, i requires 0 <= i < |items| => items[i].text)
  }

  function MapEntries(items: seq<ExperienceItem>): seq<(string, ExperienceItem)>
  {
    seq(|items|, i requires 0 <= i < |items| => (items[i].text, items[i]))
  }

  /** `experience_map`: each snippet registered under its own text, one
      after the other, so a later snippet with the same text replaces an
      earlier one. */
  function ExperienceMap(p: PersonalData): map<string, ExperienceItem>
  {
    Collect(MapEntries(ExperienceItems(p)))
  }

  // ---------------------------------------------------------------------
  // The requirement corpus

  function SkillLists(gs: seq<SkillGroup>): seq<seq<string>>
  {
    seq(|gs|, c requires 0 <= c < |gs| => gs[c].skills)
  }

  /** `requirements_corpus`: work-experience requirements, then education
      requirements, then every skill requirement, category by category. */
  function RequirementCorpus(job: JobData): seq<string>
  {
    var r := job.requirements;
    r.workExperience + r.education + Concat(SkillLists(r.skills))
  }

  // ---------------------------------------------------------------------
  // Counting, independently of the flattening

  function ResponsibilityCount(ws: seq<WorkEntry>): nat
  {
    if |ws| == 0 then 0
    else ResponsibilityCount(ws[..|ws| - 1]) + |ws[|ws| - 1].responsibilities|
  }

  function SkillCount(gs: seq<SkillGroup>): nat
  {
    if |gs| == 0 then 0 else SkillCount(gs[..|gs| - 1]) + |gs[|gs| - 1].skills|
  }

  lemma {:induction false} WorkItemsLength(ws: seq<WorkEntry>)
    ensures |Concat(WorkGroups(ws))| == ResponsibilityCount(ws)
  {
    if |ws| > 0 {
      var n := |ws| - 1;
      assert WorkGroups(ws)[..n] == WorkGroups(ws[..n]);
      WorkItemsLength(ws[..n]);
    }
  }

  lemma {:induction false} SkillItemsLength(gs: seq<SkillGroup>)
    ensures |Concat(SkillItemGroups(gs))| == SkillCount(gs)
  {
    if |gs| > 0 {
      var n := |gs| - 1;
      assert SkillItemGroups(gs)[..n] == SkillItemGroups(gs[..n]);
      SkillItemsLength(gs[..n]);
    }
  }

  lemma {:induction false} SkillTextsLength(gs: seq<SkillGroup>)
    ensures |Concat(SkillLists(gs))| == SkillCount(gs)
  {
    if |gs| > 0 {
      var n := |gs| - 1;
      assert SkillLists(gs)[..n] == SkillLists(gs[..n]);
      SkillTextsLength(gs[..n]);
    }
  }

  // ---------------------------------------------------------------------
  // Properties of the experience corpus

  /** One snippet per responsibility, per project and per individual skill. */
  lemma ExperienceItemsLength(p: PersonalData)
    ensures |ExperienceItems(p)| == |ExperienceCorpus(p)|
    ensures |ExperienceItems(p)|
         == ResponsibilityCount(p.workExperience) + |p.projects| + SkillCount(p.skills)
  {
    WorkItemsLength(p.workExperience);
    SkillItemsLength(p.skills);
  }

  /** Responsibility `k` of work entry `j` comes after every responsibility of
      the entries before `j`, labelled with the entry's title. */
  lemma WorkItemAt(p: PersonalData, j: nat, k: nat)
    requires j < |p.workExperience| && k < |p.workExperience[j].responsibilities|
    ensures ResponsibilityCount(p.workExperience[..j]) + k < |ExperienceItems(p)|
    ensures ExperienceItems(p)[ResponsibilityCount(p.workExperience[..j]) + k]
         == ExperienceItem("Work Experience: " + Render(p.workExperience[j].title),
                           p.workExperience[j].responsibilities[k])
  {
    var ws := p.workExperience;
    assert WorkGroups(ws)[..j] == WorkGroups(ws[..j]);
    WorkItemsLength(ws[..j]);
    ConcatIndex(WorkGroups(ws), j, k);
    WorkGroupsAt(ws, j, k);
    var rest := ProjectItems(p.projects) + Concat(SkillItemGroups(p.skills));
    assert ExperienceItems(p) == Concat(WorkGroups(ws)) + rest;
  }

  /** Project `i` comes after all responsibilities and the projects before
      it; its text is its description, or `""` when it has none. */
  lemma ProjectItemAt(p: PersonalData, i: nat)
    requires i < |p.projects|
    ensures ResponsibilityCount(p.workExperience) + i < |ExperienceItems(p)|
    ensures ExperienceItems(p)[ResponsibilityCount(p.workExperience) + i]
         == ExperienceItem("Project: " + Render(p.projects[i].name),
                           if p.projects[i].description.Some?
                           then p.projects[i].description.value else "")
  {
    WorkItemsLength(p.workExperience);
  }

  /** Skill `s` of category `c` comes after all responsibilities, all
      projects and the skills of the categories before `c`. */
  lemma SkillItemAt(p: PersonalData, c: nat, s: nat)
    requires c < |p.skills| && s < |p.skills[c].skills|
    ensures ResponsibilityCount(p.workExperience) + |p.projects|
            + SkillCount(p.skills[..c]) + s < |ExperienceItems(p)|
    ensures ExperienceItems(p)[ResponsibilityCount(p.workExperience) + |p.projects|
                               + SkillCount(p.skills[..c]) + s]
         == ExperienceItem("Skill: " + p.skills[c].category, p.skills[c].skills[s])
  {
    var gs := p.skills;
    WorkItemsLength(p.workExperience);
    assert SkillItemGroups(gs)[..c] == SkillItemGroups(gs[..c]);
    SkillItemsLength(gs[..c]);
    ConcatIndex(SkillItemGroups(gs), c, s);
    SkillItemGroupsAt(gs, c, s);
    var w := Concat(WorkGroups(p.workExperience)) + ProjectItems(p.projects);
    assert ExperienceItems(p) == w + Concat(SkillItemGroups(gs));
  }

  lemma WorkGroupsAt(ws: seq<WorkEntry>, j: nat, k: nat)
    requires j < |ws| && k < |ws[j].responsibilities|
    ensures k < |WorkGroups(ws)[j]|
    ensures WorkGroups(ws)[j][k]
         == ExperienceItem("Work Experience: " + Render(ws[j].title), ws[j].responsibilities[k])
  {
    assert WorkGroups(ws)[j] == WorkGroup(ws[j]);
    assert WorkLabel(ws[j]) == "Work Experience: " + Render(ws[j].title);
  }

  lemma SkillItemGroupsAt(gs: seq<SkillGroup>, c: nat, s: nat)
    requires c < |gs| && s < |gs[c].skills|
    ensures s < |SkillItemGroups(gs)[c]|
    ensures SkillItemGroups(gs)[c][s] == ExperienceItem("Skill: " + gs[c].category, gs[c].skills[s])
  {
    assert SkillItemGroups(gs)[c] == SkillGroupItems(gs[c]);
    assert SkillLabel(gs[c]) == "Skill: " + gs[c].category;
  }

  /** Every snippet is labelled by where it came from: a responsibility with
      its entry's title, a project description with the project's name, a
      skill with its category. */
  lemma ExperienceItemOrigin(p: PersonalData, e: ExperienceItem)
    ensures e in ExperienceItems(p) <==>
      || (exists j, k :: 0 <= j < |p.workExperience|
                      && 0 <= k < |p.workExperience[j].responsibilities|
                      && e == ExperienceItem("Work Experience: " + Render(p.workExperience[j].title),
                                             p.workExperience[j].responsibilities[k]))
      || (exists i :: 0 <= i < |p.projects|
                   && e == ExperienceItem("Project: " + Render(p.projects[i].name),
                                          ProjectText(p.projects[i])))
      || (exists c, s :: 0 <= c < |p.skills| && 0 <= s < |p.skills[c].skills|
                      && e == ExperienceItem("Skill: " + p.skills[c].category, p.skills[c].skills[s]))
  {
    var ws := p.workExperience;
    var gs := p.skills;
    ConcatMembership(WorkGroups(ws), e);
    ConcatMembership(SkillItemGroups(gs), e);
    if e in Concat(WorkGroups(ws)) {
      var j, k :| 0 <= j < |WorkGroups(ws)| && 0 <= k < |WorkGroups(ws)[j]| && WorkGroups(ws)[j][k] == e;
      WorkGroupsAt(ws, j, k);
    }
    if e in Concat(SkillItemGroups(gs)) {
      var c, s :| 0 <= c < |SkillItemGroups(gs)| && 0 <= s < |SkillItemGroups(gs)[c]|
               && SkillItemGroups(gs)[c][s] == e;
      SkillItemGroupsAt(gs, c, s);
    }
    if e in ProjectItems(p.projects) {
      var i :| 0 <= i < |p.projects| && ProjectItems(p.projects)[i] == e;
    }
    if exists j, k :: 0 <= j < |ws| && 0 <= k < |ws[j].responsibilities|
                   && e == ExperienceItem("Work Experience: " + Render(ws[j].title), ws[j].responsibilities[k]) {
      var j, k :| 0 <= j < |ws| && 0 <= k < |ws[j].responsibilities|
               && e == ExperienceItem("Work Experience: " + Render(ws[j].title), ws[j].responsibilities[k]);
      WorkGroupsAt(ws, j, k);
    }
    if exists i :: 0 <= i < |p.projects|
                 && e == ExperienceItem("Project: " + Render(p.projects[i].name), ProjectText(p.projects[i])) {
      var i :| 0 <= i < |p.projects|
             && e == ExperienceItem("Project: " + Render(p.projects[i].name), ProjectText(p.projects[i]));
      assert ProjectItems(p.projects)[i] == e;
    }
    if exists c, s :: 0 <= c < |gs| && 0 <= s < |gs[c].skills|
                   && e == ExperienceItem("Skill: " + gs[c].category, gs[c].skills[s]) {
      var c, s :| 0 <= c < |gs| && 0 <= s < |gs[c].skills|
               && e == ExperienceItem("Skill: " + gs[c].category, gs[c].skills[s]);
      SkillItemGroupsAt(gs, c, s);
    }
  }

  /** The early exit for the applicant fires exactly when there is no
      responsibility, no project and no skill at all. */
  lemma ExperienceCorpusEmpty(p: PersonalData)
    ensures ExperienceCorpus(p) == [] <==>
      && (forall j :: 0 <= j < |p.workExperience| ==> p.workExperience[j].responsibilities == [])
      && p.projects == []
      && (forall c :: 0 <= c < |p.skills| ==> p.skills[c].skills == [])
  {
    var ws := p.workExperience;
    var gs := p.skills;
    ExperienceItemsLength(p);
    ConcatEmpty(WorkGroups(ws));
    ConcatEmpty(SkillItemGroups(gs));
    assert forall j :: 0 <= j < |ws| ==> |WorkGroups(ws)[j]| == |ws[j].responsibilities|;
    assert forall c :: 0 <= c < |gs| ==> |SkillItemGroups(gs)[c]| == |gs[c].skills|;
  }

  // ---------------------------------------------------------------------
  // Properties of experience_map

  lemma {:induction false} CollectTextKeys(items: seq<ExperienceItem>)
    ensures forall t :: t in Collect(MapEntries(items)) ==> Collect(MapEntries(items))[t].text == t
  {
    if |items| > 0 {
      var n := |items| - 1;
      assert MapEntries(items)[..n] == MapEntries(items[..n]);
      CollectTextKeys(items[..n]);
    }
  }

  /** `experience_map` has a key for every snippet text and no other, and
      each entry's `text` field equals its key. */
  lemma ExperienceMapKeys(p: PersonalData)
    ensures ExperienceMap(p).Keys == set i | 0 <= i < |ExperienceCorpus(p)| :: ExperienceCorpus(p)[i]
    ensures forall t :: t in ExperienceMap(p) ==> ExperienceMap(p)[t].text == t
  {
    var items := ExperienceItems(p);
    CollectKeys(MapEntries(items));
    CollectTextKeys(items);
    var corpus := ExperienceCorpus(p);
    assert forall i :: 0 <= i < |items| ==> MapEntries(items)[i].0 == corpus[i];
    assert (set i | 0 <= i < |MapEntries(items)| :: MapEntries(items)[i].0)
        == (set i | 0 <= i < |corpus| :: corpus[i]);
  }

  /** Every snippet's text is a key of `experience_map`, and the entry
      found there carries that text. */
  lemma CorpusTextInMap(p: PersonalData, idx: nat)
    requires idx < |ExperienceCorpus(p)|
    ensures ExperienceCorpus(p)[idx] in ExperienceMap(p)
    ensures ExperienceMap(p)[ExperienceCorpus(p)[idx]].text == ExperienceCorpus(p)[idx]
  {
    var entries := MapEntries(ExperienceItems(p));
    CollectKeys(entries);
    CollectTextKeys(ExperienceItems(p));
    assert entries[idx].0 == ExperienceCorpus(p)[idx];
  }

  /** Last writer wins: the entry kept under a text is the last snippet in
      the corpus with that text, whatever its label. */
  lemma ExperienceMapLastWins(p: PersonalData, i: nat)
    requires i < |ExperienceItems(p)|
    requires forall j :: i < j < |ExperienceItems(p)| ==>
               ExperienceItems(p)[j].text != ExperienceItems(p)[i].text
    ensures ExperienceCorpus(p)[i] in ExperienceMap(p)
    ensures ExperienceMap(p)[ExperienceCorpus(p)[i]] == ExperienceItems(p)[i]
  {
    CollectAtLast(MapEntries(ExperienceItems(p)), i);
  }

  /** A responsibility that is also listed as a skill is attributed to the
      skill: the work-experience label is lost from `experience_map`. */
  lemma DuplicateTextTakesLaterLabel()
    ensures var p := PersonalData([WorkEntry(Some("Intern"), ["Python"])], [],
                                  [SkillGroup("Languages", ["Python"])]);
            && ExperienceCorpus(p) == ["Python", "Python"]
            && ExperienceItems(p)[0].source == "Work Experience: Intern"
            && ExperienceMap(p)["Python"].source == "Skill: Languages"
  {
    var p := PersonalData([WorkEntry(Some("Intern"), ["Python"])], [],
                          [SkillGroup("Languages", ["Python"])]);
    WorkItemAt(p, 0, 0);
    SkillItemAt(p, 0, 0);
    ExperienceItemsLength(p);
    assert ExperienceCorpus(p) == ["Python", "Python"];
    ExperienceMapLastWins(p, 1);
  }

  // ---------------------------------------------------------------------
  // Properties of the requirement corpus

  /** The requirement corpus keeps every requirement in input order: the
      work-experience list, then the education list, then skill `s` of
      category `c` after the skills of the categories before `c`. */
  lemma RequirementCorpusLayout(job: JobData)
    ensures var r := job.requirements;
      && |RequirementCorpus(job)| == |r.workExperience| + |r.education| + SkillCount(r.skills)
      && (forall i :: 0 <= i < |r.workExperience| ==> RequirementCorpus(job)[i] == r.workExperience[i])
      && (forall i :: 0 <= i < |r.education| ==>
            RequirementCorpus(job)[|r.workExperience| + i] == r.education[i])
  {
    SkillTextsLength(job.requirements.skills);
  }

  lemma RequirementSkillAt(job: JobData, c: nat, s: nat)
    requires c < |job.requirements.skills| && s < |job.requirements.skills[c].skills|
    ensures var r := job.requirements;
      && |r.workExperience| + |r.education| + SkillCount(r.skills[..c]) + s < |RequirementCorpus(job)|
      && RequirementCorpus(job)[|r.workExperience| + |r.education| + SkillCount(r.skills[..c]) + s]
         == r.skills[c].skills[s]
  {
    var r := job.requirements;
    var gs := r.skills;
    assert SkillLists(gs)[..c] == SkillLists(gs[..c]);
    SkillTextsLength(gs[..c]);
    ConcatIndex(SkillLists(gs), c, s);
  }

  /** The early exit for the job fires exactly when it lists no
      requirement at all. */
  lemma RequirementCorpusEmpty(job: JobData)
    ensures RequirementCorpus(job) == [] <==>
      && job.requirements.workExperience == []
      && job.requirements.education == []
      && (forall c :: 0 <= c < |job.requirements.skills| ==> job.requirements.skills[c].skills == [])
  {
    var gs := job.requirements.skills;
    ConcatEmpty(SkillLists(gs));
    assert forall c :: 0 <= c < |gs| ==> SkillLists(gs)[c] == gs[c].skills;
  }
}
