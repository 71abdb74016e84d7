/**
 * The skills section (client/src/components/SkillsSection.tsx): skills are
 * grouped by category, one card per distinct category, and each skill's bar
 * fills once it scrolls into view.
 */
module Skills {
  import Slug

  /** A skill record as the data layer serves it (shared/schema.ts). */
  datatype Skill = Skill(id: string, name: string, proficiency: int, category: string)

  predicate NoDuplicates<T(==)>(s: seq<T>) {
    forall i, j :: 0 <= i < j < |s| ==> s[i] != s[j]
  }

  /**
   * `Array.from(new Set(skills.map(s => s.category)))`: a Set keeps the first
   * insertion of each value, so a category is added when first met.
   */
  function Categories(skills: seq<Skill>): (r: seq<string>)
    ensures NoDuplicates(r)
    ensures forall c :: c in r <==> exists s :: s in skills && s.category == c
  {
    if skills == [] then []
    else
      var init, last := skills[..|skills| - 1], skills[|skills| - 1];
      assert skills == init + [last];
      var r := Categories(init);
      if last.category in r then r else r + [last.category]
  }

  /**
   * Categories are listed in order of first appearance: every skill of a
   * later category comes after some skill of each earlier category.
   */
  lemma {:induction false} CategoriesInFirstAppearanceOrder(skills: seq<Skill>, i: nat, j: nat, kj: nat)
    requires i < j < |Categories(skills)| && kj < |skills|
    requires skills[kj].category == Categories(skills)[j]
    ensures exists ki :: 0 <= ki < kj && skills[ki].category == Categories(skills)[i]
  {
    var n := |skills| - 1;
    var init, c := skills[..n], skills[n].category;
    var r, r' := Categories(skills), Categories(init);
    assert skills == init + [skills[n]];
    if kj < n {
      assert init[kj] == skills[kj];
      assert r[j] in r';
      assert j < |r'| && r[j] == r'[j] && r[i] == r'[i];
      CategoriesInFirstAppearanceOrder(init, i, j, kj);
    } else if c in r' {
      assert r == r';
      var s :| s in init && s.category == c;
      var kj' :| 0 <= kj' < n && init[kj'] == s;
      CategoriesInFirstAppearanceOrder(init, i, j, kj');
    } else {
      assert r == r' + [c];
      assert i < |r'| && r'[i] in r' && r[i] == r'[i];
      var s :| s in init && s.category == r'[i];
      var ki :| 0 <= ki < n && init[ki] == s;
      assert skills[ki] == s;
    }
  }

  /** `skills.filter(s => s.category === category)`. */
  function CategorySkills(skills: seq<Skill>, category: string): (r: seq<Skill>)
    ensures |r| <= |skills|
    ensures forall s :: s in r <==> s in skills && s.category == category
  {
    if skills == [] then []
    else
      var init, last := skills[..|skills| - 1], skills[|skills| - 1];
      assert skills == init + [last];
      CategorySkills(init, category) + (if last.category == category then [last] else [])
  }

  /**
   * The filter keeps the skills in their original order: filtering a
   * concatenation concatenates the filtered parts.
   */
  lemma {:induction false} CategorySkillsConcat(a: seq<Skill>, b: seq<Skill>, category: string)
    ensures CategorySkills(a + b, category) == CategorySkills(a, category) + CategorySkills(b, category)
  {
    if b == [] {
      assert a + b == a;
    } else {
      var b', last := b[..|b| - 1], b[|b| - 1];
      assert (a + b)[..|a + b| - 1] == a + b';
      assert (a + b)[|a + b| - 1] == last;
      CategorySkillsConcat(a, b', category);
      var tail := if last.category == category then [last] else [];
      assert (CategorySkills(a, category) + CategorySkills(b', category)) + tail
        == CategorySkills(a, category) + (CategorySkills(b', category) + tail);
    }
  }

  /** A single skill is kept exactly when it has the category. */
  lemma CategorySkillsSingleton(s: Skill, category: string)
    ensures CategorySkills([s], category) == if s.category == category then [s] else []
  {
    assert [s][..0] == [];
  }

  /** Every listed category has at least one skill in its group. */
  lemma CategoryGroupNonEmpty(skills: seq<Skill>, c: string)
    requires c in Categories(skills)
    ensures |CategorySkills(skills, c)| > 0
  {
    var s :| s in skills && s.category == c;
    assert s in CategorySkills(skills, c);
  }

  /** Number of skills whose category is among `cats`. */
  function CountIn(skills: seq<Skill>, cats: seq<string>): nat {
    if skills == [] then 0
    else CountIn(skills[..|skills| - 1], cats) + (if skills[|skills| - 1].category in cats then 1 else 0)
  }

  /** Sum of the group sizes of the categories `cats`. */
  function GroupSizes(skills: seq<Skill>, cats: seq<string>): nat {
    if cats == [] then 0 else |CategorySkills(skills, cats[0])| + GroupSizes(skills, cats[1..])
  }

  lemma {:induction false} CountInSplit(skills: seq<Skill>, cats: seq<string>)
    requires |cats| > 0 && cats[0] !in cats[1..]
    ensures CountIn(skills, cats) == |CategorySkills(skills, cats[0])| + CountIn(skills, cats[1..])
  {
    if skills != [] {
      var last := skills[|skills| - 1];
      CountInSplit(skills[..|skills| - 1], cats);
      assert last.category in cats <==> last.category == cats[0] || last.category in cats[1..];
    }
  }

  lemma {:induction false} GroupSizesCount(skills: seq<Skill>, cats: seq<string>)
    requires NoDuplicates(cats)
    ensures GroupSizes(skills, cats) == CountIn(skills, cats)
  {
    if cats == [] {
      CountInNone(skills);
    } else {
      assert cats[0] !in cats[1..] by {
        forall k | 0 <= k < |cats[1..]| ensures cats[1..][k] != cats[0] {
          assert cats[1..][k] == cats[k + 1];
        }
      }
      GroupSizesCount(skills, cats[1..]);
      CountInSplit(skills, cats);
    }
  }

  lemma {:induction false} CountInNone(skills: seq<Skill>)
    ensures CountIn(skills, []) == 0
  {
    if skills != [] {
      CountInNone(skills[..|skills| - 1]);
    }
  }

  lemma {:induction false} CountInAll(skills: seq<Skill>, cats: seq<string>)
    requires forall s :: s in skills ==> s.category in cats
    ensures CountIn(skills, cats) == |skills|
  {
    if skills != [] {
      var init := skills[..|skills| - 1];
      assert forall s :: s in init ==> s in skills;
      assert skills[|skills| - 1] in skills;
      CountInAll(init, cats);
    }
  }

  /** The groups partition the skills: their sizes add up to the number of skills. */
  lemma GroupsPartitionSkills(skills: seq<Skill>)
    ensures GroupSizes(skills, Categories(skills)) == |skills|
  {
    var cats := Categories(skills);
    GroupSizesCount(skills, cats);
    forall s | s in skills ensures s.category in cats { }
    CountInAll(skills, cats);
  }

  /** One category card: heading, test-id slug, the count badge and the skill bars. */
  datatype CategoryCard = CategoryCard(category: string, slug: string, count: nat, members: seq<Skill>)

  /** The cards rendered by `categories.map(...)`. */
  function Cards(skills: seq<Skill>): (r: seq<CategoryCard>)
    ensures |r| == |Categories(skills)|
    ensures forall i :: 0 <= i < |r| ==>
      && r[i].category == Categories(skills)[i]
      && r[i].count == |r[i].members| > 0
      && r[i].members == CategorySkills(skills, r[i].category)
      && (forall s :: s in r[i].members <==> s in skills && s.category == r[i].category)
      && r[i].slug == Slug.Slugify(r[i].category)
      && Slug.NoSpace(r[i].slug)
  {
    var cats := Categories(skills);
    forall i | 0 <= i < |cats| ensures |CategorySkills(skills, cats[i])| > 0 {
      CategoryGroupNonEmpty(skills, cats[i]);
    }
    seq(|cats|, i requires 0 <= i < |cats| =>
      var members := CategorySkills(skills, cats[i]);
      CategoryCard(cats[i], Slug.Slugify(cats[i]), |members|, members))
  }

  /**
   * The progress bar of one skill: it shows 0 until the bar scrolls into
   * view, then a 200 ms timer sets it to the skill's proficiency.
   */
  class SkillBar {
    const skill: Skill
    var progress: int
    /** The intersection observer has reported the bar in view (it reports once). */
    var inView: bool
    /** The 200 ms timer is armed. */
    var timerPending: bool

    ghost predicate Valid()
      reads this
    {
      && (progress == 0 || progress == skill.proficiency)
      && (!inView ==> progress == 0 && !timerPending)
    }

    constructor (skill: Skill)
      ensures Valid() && this.skill == skill
      ensures progress == 0 && !inView && !timerPending
    {
      this.skill := skill;
      progress := 0;
      inView := false;
      timerPending := false;
    }

    /** The observer fires; the effect arms the timer the first time only. */
    method EnterView()
      requires Valid()
      modifies this
      ensures Valid() && inView && progress == old(progress)
      ensures timerPending == (old(timerPending) || !old(inView))
    {
      if !inView {
        inView := true;
        timerPending := true;
      }
    }

    /** The timer fires and the bar jumps to the proficiency. */
    method TimerFires()
      requires Valid() && timerPending
      modifies this
      ensures Valid() && inView && !timerPending
      ensures progress == skill.proficiency
    {
      progress := skill.proficiency;
      timerPending := false;
    }

    /** The effect's clean-up clears a pending timer. */
    method Unmount()
      requires Valid()
      modifies this
      ensures Valid() && !timerPending
      ensures progress == old(progress) && inView == old(inView)
    {
      timerPending := false;
    }
  }
}
