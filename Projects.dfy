/**
 * The projects section (client/src/components/ProjectsSection.tsx): the
 * badge rules of one project card.
 */
module Projects {
  import opened Wrappers
  import Slug

  /** A project record as the data layer serves it (shared/schema.ts). */
  datatype Project = Project(
    id: string, title: string, description: string, tech: seq<string>,
    stars: int, language: string, url: string, tags: Option<seq<string>>)

  /** How many technologies get a badge of their own. */
  const MaxTechBadges := 3

  /** A technology badge: the name shown and its test id. */
  datatype TechBadge = TechBadge(name: string, testId: string)

  /** The tech row of a card: the named badges, then a "+N" badge when some are hidden. */
  datatype TechRow = TechRow(badges: seq<TechBadge>, more: Option<nat>)

  const TechTestIdPrefix := "badge-project-tech-"

  /** `badge-project-tech-${project.id}-${slug of tech}`. */
  function TechTestId(projectId: string, tech: string): string {
    TechTestIdPrefix + projectId + "-" + Slug.Slugify(tech)
  }

  /** `tech.slice(0, 3).map(...)` followed by `tech.length > 3 && "+" + (tech.length - 3)`. */
  function TechRowOf(p: Project): (r: TechRow)
    ensures |r.badges| == if |p.tech| < MaxTechBadges then |p.tech| else MaxTechBadges
    ensures forall i :: 0 <= i < |r.badges| ==>
      r.badges[i] == TechBadge(p.tech[i], TechTestId(p.id, p.tech[i]))
    ensures r.more.Some? <==> |p.tech| > MaxTechBadges
    ensures r.more.Some? ==> r.more.value == |p.tech| - MaxTechBadges
    ensures |r.badges| + (if r.more.Some? then r.more.value else 0) == |p.tech|
  {
    var shown := if |p.tech| < MaxTechBadges then p.tech else p.tech[..MaxTechBadges];
    var badges := seq(|shown|, i requires 0 <= i < |shown| => TechBadge(shown[i], TechTestId(p.id, shown[i])));
    TechRow(badges, if |p.tech| > MaxTechBadges then Some(|p.tech| - MaxTechBadges) else None)
  }

  /** The tag row is rendered only for present, non-empty tags, one badge per tag in order. */
  function TagRow(p: Project): (r: Option<seq<string>>)
    ensures r.Some? <==> p.tags.Some? && |p.tags.value| > 0
    ensures r.Some? ==> r.value == p.tags.value
  {
    match p.tags
    case Some(tags) => if |tags| > 0 then Some(tags) else None
    case None => None
  }

  /** The slug part of every tech test id has no whitespace, and slugging it again changes nothing. */
  lemma TechTestIdSlug(p: Project, i: nat)
    requires i < |TechRowOf(p).badges|
    ensures var id := TechRowOf(p).badges[i].testId;
      var slug := id[|TechTestIdPrefix + p.id + "-"|..];
      Slug.NoSpace(slug) && Slug.Slugify(slug) == slug
  {
    var tech := p.tech[i];
    var slug := Slug.Slugify(tech);
    var id := TechRowOf(p).badges[i].testId;
    assert id == (TechTestIdPrefix + p.id + "-") + slug;
    assert id[|TechTestIdPrefix + p.id + "-"|..] == slug;
    Slug.SlugifyIdempotent(tech);
  }
}
