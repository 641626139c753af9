/**
 * The AI companion's personality registry: the five fixed profiles written by the two
 * personality patch scripts, and the profile each configuration entry generates.
 */
module Personalities {

  /** The four-axis trait vector; each axis is a score out of 100. */
  datatype Traits = Traits(encouraging: int, critical: int, creative: int, analytical: int)

  predicate TraitsInRange(t: Traits) {
    && 0 <= t.encouraging <= 100
    && 0 <= t.critical <= 100
    && 0 <= t.creative <= 100
    && 0 <= t.analytical <= 100
  }

  /** A profile as `fix_personalities` writes it, before specialties were added. */
  datatype BaseProfile = BaseProfile(
    id: string, name: string, description: string, role: string, traits: Traits,
    greetingStyle: string, feedbackStyle: string, isActive: bool)

  /** One entry of `fix_personality_complete`'s configuration table. */
  datatype ProfileConfig = ProfileConfig(
    id: string, role: string, name: string, traits: Traits,
    specialties: seq<string>, communicationStyle: string)

  /** A complete profile as `fix_personality_complete` generates it. */
  datatype AIPersonality = AIPersonality(
    id: string, name: string, description: string, role: string, traits: Traits,
    specialties: seq<string>, communicationStyle: string, greetingStyle: string,
    feedbackStyle: string, isActive: bool)

  /** The profile that starts out active. */
  const DefaultActive: string := "mentor"

  /** The five profiles of `fix_personalities`. */
  const BaseProfiles: seq<BaseProfile> := [
    BaseProfile("mentor", "Wise Mentor", "Supportive and guiding", "mentor",
      Traits(80, 20, 60, 70), "warm", "constructive", true),
    BaseProfile("critic", "Analytical Critic", "Detail-oriented and precise", "critic",
      Traits(30, 90, 40, 95), "professional", "detailed", false),
    BaseProfile("cheerleader", "Enthusiastic Cheerleader", "Energetic and supportive", "cheerleader",
      Traits(95, 10, 75, 30), "artistic", "encouraging", false),
    BaseProfile("collaborator", "Creative Collaborator", "Collaborative and creative", "collaborator",
      Traits(70, 40, 90, 60), "curious", "collaborative", false),
    BaseProfile("editor", "Professional Editor", "Focused on quality and precision", "editor",
      Traits(50, 80, 30, 85), "direct", "editorial", false)
  ]

  /** The configuration table of `fix_personality_complete`. */
  const Configs: seq<ProfileConfig> := [
    ProfileConfig("mentor", "mentor", "Wise Mentor", Traits(80, 20, 60, 70),
      ["guidance", "motivation", "story_structure"], "supportive"),
    ProfileConfig("critic", "critic", "Analytical Critic", Traits(30, 90, 40, 95),
      ["grammar", "style_analysis", "plot_holes"], "formal"),
    ProfileConfig("cheerleader", "cheerleader", "Enthusiastic Cheerleader", Traits(95, 10, 75, 30),
      ["motivation", "confidence_building", "encouragement"], "playful"),
    ProfileConfig("collaborator", "collaborator", "Creative Collaborator", Traits(70, 40, 90, 60),
      ["brainstorming", "idea_generation", "creative_prompts"], "casual"),
    ProfileConfig("editor", "editor", "Professional Editor", Traits(50, 80, 30, 85),
      ["editing", "proofreading", "structure"], "direct")
  ]

  /**
   * The characters Python's `str.isspace` accepts, on which a bare `split()` separates words:
   * space, tab to carriage return, the four information separators, next line, no-break space
   * and the Unicode space separators, line and paragraph separators.
   */
  predicate IsSpace(c: char) {
    || c == ' ' || '\t' <= c <= '\r' || '\U{1C}' <= c <= '\U{1F}'
    || c == '\U{85}' || c == '\U{A0}' || c == '\U{1680}' || '\U{2000}' <= c <= '\U{200A}'
    || c == '\U{2028}' || c == '\U{2029}' || c == '\U{202F}' || c == '\U{205F}' || c == '\U{3000}'
  }

  /**
   * Python's `s.split()` with no argument: the maximal runs of non-whitespace characters, in
   * order, with leading, trailing and repeated whitespace producing no empty words.
   */
  function Words(s: string): (r: seq<string>)
    ensures forall k :: 0 <= k < |r| ==> |r[k]| > 0 && SpaceFree(r[k])
    decreases |s|
  {
    if |s| == 0 then []
    else if IsSpace(s[0]) then Words(s[1..])
    else
      var w := FirstWord(s);
      [w] + Words(s[|w|..])
  }

  /** The longest prefix of `s` without whitespace: the word `split()` takes next. */
  function FirstWord(s: string): (w: string)
    ensures |w| <= |s| && w == s[..|w|]
    ensures |s| > 0 && !IsSpace(s[0]) ==> |w| > 0
    ensures SpaceFree(w)
    ensures |w| < |s| ==> IsSpace(s[|w|])
    decreases |s|
  {
    if |s| == 0 || IsSpace(s[0]) then [] else [s[0]] + FirstWord(s[1..])
  }

  /** `w` holds no whitespace character at all. */
  predicate SpaceFree(w: string) {
    forall i :: 0 <= i < |w| ==> !IsSpace(w[i])
  }

  lemma {:induction false} FirstWordOf(w: string, rest: string)
    requires SpaceFree(w)
    requires |rest| == 0 || IsSpace(rest[0])
    ensures FirstWord(w + rest) == w
    decreases |w|
  {
    if |w| > 0 {
      assert (w + rest)[1..] == w[1..] + rest;
      FirstWordOf(w[1..], rest);
    } else {
      assert w + rest == rest;
    }
  }

  lemma WordsAfterSpace(b: string)
    ensures Words(" " + b) == Words(b)
  {
    assert (" " + b)[1..] == b;
  }

  lemma WordsOfWord(b: string)
    requires |b| > 0 && SpaceFree(b)
    ensures Words(b) == [b]
  {
    FirstWordOf(b, "");
    assert b + "" == b;
    assert b[|b|..] == [];
  }

  /** A two-word name splits into its two words. */
  lemma WordsOfTwo(a: string, b: string)
    requires |a| > 0 && |b| > 0 && SpaceFree(a) && SpaceFree(b)
    ensures Words(a + " " + b) == [a, b]
  {
    var s := a + " " + b;
    FirstWordOf(a, " " + b);
    assert s == a + (" " + b);
    assert FirstWord(s) == a;
    assert s[|a|..] == " " + b;
    WordsAfterSpace(b);
    WordsOfWord(b);
  }

  /** Leading whitespace of any kind produces no word. */
  lemma WordsAfterWhitespace(c: char, b: string)
    requires IsSpace(c)
    ensures Words([c] + b) == Words(b)
  {
    assert ([c] + b)[1..] == b;
  }

  /** Two words separated by any single whitespace character, a tab say, split apart. */
  lemma WordsAcrossWhitespace(a: string, c: char, b: string)
    requires |a| > 0 && |b| > 0 && SpaceFree(a) && SpaceFree(b) && IsSpace(c)
    ensures Words(a + [c] + b) == [a, b]
  {
    var s := a + [c] + b;
    FirstWordOf(a, [c] + b);
    assert s == a + ([c] + b);
    assert s[|a|..] == [c] + b;
    WordsAfterWhitespace(c, b);
    WordsOfWord(b);
  }

  /** The words joined by single spaces, as the table's names are written. */
  function JoinSpaced(ws: seq<string>): string {
    if |ws| == 0 then "" else if |ws| == 1 then ws[0] else ws[0] + " " + JoinSpaced(ws[1..])
  }

  /** `split()` undoes joining whitespace-free, non-empty words by spaces, for any number of words. */
  lemma {:induction false} WordsJoinSpaced(ws: seq<string>)
    requires forall k :: 0 <= k < |ws| ==> |ws[k]| > 0 && SpaceFree(ws[k])
    ensures Words(JoinSpaced(ws)) == ws
    decreases |ws|
  {
    if |ws| == 1 {
      WordsOfWord(ws[0]);
    } else if |ws| > 1 {
      var rest := JoinSpaced(ws[1..]);
      var s := ws[0] + " " + rest;
      assert s == ws[0] + (" " + rest);
      FirstWordOf(ws[0], " " + rest);
      assert s[|ws[0]|..] == " " + rest;
      WordsAfterSpace(rest);
      WordsJoinSpaced(ws[1..]);
      assert ws == [ws[0]] + ws[1..];
    }
  }

  // ---------------------------------------------------------------------------------------
  // Generated profiles (fix_personality_complete.py:102-118)
  // ---------------------------------------------------------------------------------------

  /**
   * The profile generated from one configuration entry. The description is the second word
   * of the name (the script's `name.split()[1]`, which fails on a one-word name).
   */
  function Generate(c: ProfileConfig): (p: AIPersonality)
    requires |Words(c.name)| >= 2
    ensures p.description == Words(c.name)[1] + " personality"
    ensures p.id == c.id && p.name == c.name && p.role == c.role && p.traits == c.traits
    ensures p.specialties == c.specialties && p.communicationStyle == c.communicationStyle
    ensures p.greetingStyle == c.communicationStyle && p.feedbackStyle == "constructive"
    ensures p.isActive <==> c.id == DefaultActive
  {
    AIPersonality(
      c.id, c.name, Words(c.name)[1] + " personality", c.role, c.traits, c.specialties,
      c.communicationStyle, c.communicationStyle, "constructive", c.id == DefaultActive)
  }

  /** A name of two whitespace-free words describes its profile by the second word. */
  lemma GenerateDescribesBySecondWord(c: ProfileConfig, first: string, second: string)
    requires |first| > 0 && |second| > 0 && SpaceFree(first) && SpaceFree(second)
    requires c.name == first + " " + second
    ensures |Words(c.name)| == 2
    ensures Generate(c).description == second + " personality"
  {
    WordsOfTwo(first, second);
  }

  predicate TwoWordNames(cs: seq<ProfileConfig>) {
    forall i :: 0 <= i < |cs| ==> |Words(cs[i].name)| >= 2
  }

  function GenerateAll(cs: seq<ProfileConfig>): (ps: seq<AIPersonality>)
    requires TwoWordNames(cs)
    ensures |ps| == |cs|
    ensures forall i :: 0 <= i < |cs| ==> ps[i] == Generate(cs[i])
  {
    if |cs| == 0 then [] else [Generate(cs[0])] + GenerateAll(cs[1..])
  }

  /** Number of profiles flagged active. */
  function ActiveCount(ps: seq<AIPersonality>): nat {
    if |ps| == 0 then 0 else (if ps[0].isActive then 1 else 0) + ActiveCount(ps[1..])
  }

  /** Number of configuration entries with the given id. */
  function IdCount(cs: seq<ProfileConfig>, id: string): nat {
    if |cs| == 0 then 0 else (if cs[0].id == id then 1 else 0) + IdCount(cs[1..], id)
  }

  predicate DistinctConfigIds(cs: seq<ProfileConfig>) {
    forall i, j :: 0 <= i < j < |cs| ==> cs[i].id != cs[j].id
  }

  /** Each generated profile is active exactly when its configuration entry is the mentor. */
  lemma {:induction false} ActiveCountGenerated(cs: seq<ProfileConfig>)
    requires TwoWordNames(cs)
    ensures ActiveCount(GenerateAll(cs)) == IdCount(cs, DefaultActive)
    decreases |cs|
  {
    if |cs| > 0 {
      assert GenerateAll(cs)[1..] == GenerateAll(cs[1..]);
      ActiveCountGenerated(cs[1..]);
    }
  }

  /** With distinct ids, an id occurs once if it occurs at all. */
  lemma {:induction false} IdCountDistinct(cs: seq<ProfileConfig>, id: string)
    requires DistinctConfigIds(cs)
    ensures IdCount(cs, id) == (if exists i :: 0 <= i < |cs| && cs[i].id == id then 1 else 0)
    decreases |cs|
  {
    if |cs| > 0 {
      IdCountDistinct(cs[1..], id);
      if cs[0].id == id {
        forall i | 1 <= i < |cs| ensures cs[i].id != id { }
        assert !exists i :: 0 <= i < |cs[1..]| && cs[1..][i].id == id;
      } else {
        assert (exists i :: 0 <= i < |cs| && cs[i].id == id)
           <==> (exists i :: 0 <= i < |cs[1..]| && cs[1..][i].id == id) by {
          if exists i :: 0 <= i < |cs| && cs[i].id == id {
            var i :| 0 <= i < |cs| && cs[i].id == id;
            assert cs[1..][i - 1].id == id;
          }
        }
      }
    }
  }

  /** What the configuration table must satisfy for the registry it generates to be sound. */
  predicate ConfigTableOk(cs: seq<ProfileConfig>) {
    && TwoWordNames(cs)
    && DistinctConfigIds(cs)
    && (forall i :: 0 <= i < |cs| ==> TraitsInRange(cs[i].traits))
    && (forall i :: 0 <= i < |cs| ==> cs[i].role == cs[i].id)
    && (forall i :: 0 <= i < |cs| ==> |cs[i].specialties| == 3)
    && (exists i :: 0 <= i < |cs| && cs[i].id == DefaultActive)
  }

  /** The registry invariants of the generated profiles. */
  predicate RegistryOk(ps: seq<AIPersonality>) {
    && (forall i, j :: 0 <= i < j < |ps| ==> ps[i].id != ps[j].id)
    && (forall i :: 0 <= i < |ps| ==> TraitsInRange(ps[i].traits))
    && (forall i :: 0 <= i < |ps| ==> ps[i].role == ps[i].id)
    && (forall i :: 0 <= i < |ps| ==> |ps[i].specialties| == 3)
    && (forall i :: 0 <= i < |ps| ==> ps[i].greetingStyle == ps[i].communicationStyle)
    && (forall i :: 0 <= i < |ps| ==> ps[i].feedbackStyle == "constructive")
    && (forall i :: 0 <= i < |ps| ==> (ps[i].isActive <==> ps[i].id == DefaultActive))
    && ActiveCount(ps) == 1
  }

  /** Any sound configuration table generates a registry with exactly one active profile. */
  lemma GeneratedRegistryOk(cs: seq<ProfileConfig>)
    requires ConfigTableOk(cs)
    ensures RegistryOk(GenerateAll(cs))
  {
    ActiveCountGenerated(cs);
    IdCountDistinct(cs, DefaultActive);
  }

  lemma MentorSplit() ensures |Words(Configs[0].name)| == 2 {
    assert Configs[0].name == "Wise" + " " + "Mentor";
    WordsOfTwo("Wise", "Mentor");
  }

  lemma CriticSplit() ensures |Words(Configs[1].name)| == 2 {
    assert Configs[1].name == "Analytical" + " " + "Critic";
    WordsOfTwo("Analytical", "Critic");
  }

  lemma CheerleaderSplit() ensures |Words(Configs[2].name)| == 2 {
    assert Configs[2].name == "Enthusiastic" + " " + "Cheerleader";
    WordsOfTwo("Enthusiastic", "Cheerleader");
  }

  lemma CollaboratorSplit() ensures |Words(Configs[3].name)| == 2 {
    assert Configs[3].name == "Creative" + " " + "Collaborator";
    WordsOfTwo("Creative", "Collaborator");
  }

  lemma EditorSplit() ensures |Words(Configs[4].name)| == 2 {
    assert Configs[4].name == "Professional" + " " + "Editor";
    WordsOfTwo("Professional", "Editor");
  }

  /** Each name of the table is two whitespace-free words. */
  lemma ConfigNameSplits(i: nat)
    requires i < |Configs|
    ensures |Words(Configs[i].name)| == 2
  {
    if i == 0 { MentorSplit(); }
    else if i == 1 { CriticSplit(); }
    else if i == 2 { CheerleaderSplit(); }
    else if i == 3 { CollaboratorSplit(); }
    else { EditorSplit(); }
  }

  /** The five names of the table split into two words each. */
  lemma ConfigNamesSplit()
    ensures TwoWordNames(Configs)
  {
    forall i | 0 <= i < |Configs| ensures |Words(Configs[i].name)| >= 2 {
      ConfigNameSplits(i);
    }
  }

  /**
   * The registry `fix_personality_complete` writes: five profiles with the listed ids, every
   * invariant of `RegistryOk`, and only the mentor active.
   */
  lemma InitialRegistryOk()
    ensures TwoWordNames(Configs)
    ensures var ps := GenerateAll(Configs);
      && |ps| == 5
      && ps[0].id == "mentor" && ps[1].id == "critic" && ps[2].id == "cheerleader"
      && ps[3].id == "collaborator" && ps[4].id == "editor"
      && RegistryOk(ps)
  {
    ConfigTableHolds();
    GeneratedRegistryOk(Configs);
    GeneratedIds(Configs);
    ConfigIds();
  }

  /** The ids of the table, in order. */
  lemma ConfigIds()
    ensures |Configs| == 5
    ensures Configs[0].id == "mentor" && Configs[1].id == "critic" && Configs[2].id == "cheerleader"
    ensures Configs[3].id == "collaborator" && Configs[4].id == "editor"
  {
  }

  /** Generation keeps the ids of the table, position by position. */
  lemma GeneratedIds(cs: seq<ProfileConfig>)
    requires TwoWordNames(cs)
    ensures var ps := GenerateAll(cs);
      |ps| == |cs| && forall i :: 0 <= i < |cs| ==> ps[i].id == cs[i].id
  {
  }

  lemma ConfigTableHolds()
    ensures ConfigTableOk(Configs)
  {
    ConfigNamesSplit();
    ConfigFieldsHold();
  }

  lemma ConfigFieldsHold()
    ensures DistinctConfigIds(Configs)
    ensures forall i :: 0 <= i < |Configs| ==> TraitsInRange(Configs[i].traits)
    ensures forall i :: 0 <= i < |Configs| ==> Configs[i].role == Configs[i].id
    ensures forall i :: 0 <= i < |Configs| ==> |Configs[i].specialties| == 3
    ensures Configs[0].id == DefaultActive
  {
  }

  /**
   * The registry `fix_personalities` writes: five profiles with distinct ids, traits within
   * range, each role equal to its id, and only the mentor active.
   */
  lemma BaseProfilesOk()
    ensures |BaseProfiles| == 5
    ensures forall i, j :: 0 <= i < j < |BaseProfiles| ==> BaseProfiles[i].id != BaseProfiles[j].id
    ensures forall i :: 0 <= i < |BaseProfiles| ==> TraitsInRange(BaseProfiles[i].traits)
    ensures forall i :: 0 <= i < |BaseProfiles| ==> BaseProfiles[i].role == BaseProfiles[i].id
    ensures forall i :: 0 <= i < |BaseProfiles| ==>
      (BaseProfiles[i].isActive <==> BaseProfiles[i].id == DefaultActive)
  {
  }

  /** Both scripts give every profile the same id, name and trait vector, in the same order. */
  lemma TablesAgree()
    ensures |BaseProfiles| == |Configs|
    ensures forall i :: 0 <= i < |Configs| ==>
      && BaseProfiles[i].id == Configs[i].id
      && BaseProfiles[i].name == Configs[i].name
      && BaseProfiles[i].traits == Configs[i].traits
  {
  }
}
