# Portfolio site: cursor trail, skills grouping, typewriter, count-up and badge rules

This project models in Dafny the small amount of real logic in a personal
portfolio single-page application. Most of the site is layout. What remains
are a few state machines and data transforms inside its React components:

- **Cursor particle trail** (`Cursor.dfy`, class `CursorTrail`). A mouse move
  emits a particle when the pointer has moved more than 5 px since the last
  emission. Each animation frame decays every particle's opacity and scale,
  drops the expired ones and releases their elements. Unmounting releases
  everything. Opacity and scale are integers in hundredths: a particle is
  born at 100/100 and loses 2/1 per frame. A particle's element is identified
  by the particle's id, and the container's children are the set `attached`.
- **Skill grouping** (`Skills.dfy`). It lists the distinct categories in
  first-appearance order and gives each card its skills, count and test-id
  slug. Class `SkillBar` holds a bar's progress, which starts at 0 and jumps
  to the proficiency 200 ms after the bar comes into view.
- **Shared test-id slug** (`Slug.dfy`). This is `toLowerCase()` followed by
  `replace(/\s+/g, '-')`. The skills and projects sections both use it.
- **Typewriter and caret blink** (`Hero.dfy`, class `HeroText`).
- **Count-up number and icon lookup** (`About.dfy`, class `CountUp`, function
  `IconFor`).
- **Project badge rules** (`Projects.dfy`). A card shows at most three tech
  badges, then a "+N" badge. Tags are rendered only when present and
  non-empty.
- `Wrappers.dfy` holds the `Option` type, which stands for the source's
  optional fields and `null` start time.

The model replaces timers, intervals and animation frames with explicit
method calls: `Tick`, `TypeTick`, `BlinkTick`, `Frame`, `TimerFires`.
Cancelling one means no further calls, and each such method requires the
flag that says it is still scheduled. The browser's input to the model
becomes parameters: event coordinates, the "clickable" classification of
the event target, whether the container element exists, and frame
timestamps.

Edge cases of the code that the model keeps exactly:

- The emission test is strict (`distance > 5`, `CustomCursor.tsx:38`), so a
  displacement of exactly 5 px emits nothing.
- Emission also needs the particle container to exist (`CustomCursor.tsx:38`).
  This is the `containerMounted` parameter of `OnMove`.
- The count-up's start-time test is the falsy check `!startTime`
  (`AboutSection.tsx:27`). A first frame at timestamp 0 therefore leaves the
  start unset, and the next frame fixes it again. `Unset` models exactly
  this.

## Model

| member | source | states |
|---|---|---|
| `Cursor.CursorTrail.constructor` | client/src/components/CustomCursor.tsx:13-17 | Initial state: ring at (−100, −100), last emission point (0, 0), counter 0, no particles, no elements attached, listeners and first frame registered |
| `Cursor.CursorTrail.OnMove` | client/src/components/CustomCursor.tsx:21-59 | Ring moves to the event point and takes the clickable flag. A particle is emitted iff the container exists and the squared distance from the last emission point exceeds 25. On emission it is appended last with id = old counter, at the event point, opacity 100 and scale 100 and its element attached; the counter goes up by 1 and the last emission point becomes the event point. Otherwise list, counter, last point and elements are unchanged. The invariant (increasing ids below the counter, live decay state, attached = ids with elements) is kept |
| `Cursor.CursorTrail.OnLeave` | client/src/components/CustomCursor.tsx:62-64 | Ring goes to (−100, −100); particles, counter, last emission point and elements are untouched |
| `Cursor.CursorTrail.Tick` | client/src/components/CustomCursor.tsx:78-97 | The list becomes `Step` of the old list. The elements of expired particles are released and nothing else changes. The next frame stays scheduled, the invariant is kept, and every particle still in the list has scale > 50 |
| `Cursor.CursorTrail.Teardown` | client/src/components/CustomCursor.tsx:102-106 | Whatever the list size, the list becomes empty and no element stays attached. The frame loop and the listeners are cancelled. Ring, counter and last point are unchanged |
| `Cursor.Step` | client/src/components/CustomCursor.tsx:80-94 | A frame never lengthens the list |
| `Cursor.StepMembers` | client/src/components/CustomCursor.tsx:80-94 | A particle is in the next list iff it is the decay (opacity −2, scale −1) of a current particle whose decayed opacity is > 0 and which has its element; no particle is added |
| `Cursor.StepKeepsOrder` | client/src/components/CustomCursor.tsx:80-94 | Survivors keep their relative order (strictly increasing ids stay strictly increasing) |
| `Cursor.StepWellFormed` | client/src/components/CustomCursor.tsx:49-94 | A frame keeps the list invariant: increasing ids below the counter, opacity in (0, 100], 2·scale − opacity = 100 |
| `Cursor.RemovedIffExpired` | client/src/components/CustomCursor.tsx:81-87 | With distinct ids, a particle (and its id) is removed by a frame iff its new opacity is ≤ 0 or its element is absent |
| `Cursor.StepElementIds` | client/src/components/CustomCursor.tsx:84-86 | The elements left after a frame are exactly the old ones minus those of the removed particles |
| `Cursor.TicksMembers` | client/src/components/CustomCursor.tsx:78-97 | After k frames the list holds exactly the particles that lived through all k (element present, opacity − 2k > 0), each aged k times |
| `Cursor.FreshLifetime` | client/src/components/CustomCursor.tsx:53-84 | A particle born at opacity 100 is present after frames 0 to 49 and absent from frame 50 on; with distinct ids, nothing carrying its id remains |
| `Cursor.FreshTicks` | client/src/components/CustomCursor.tsx:79-97 | A lone fresh particle after k frames is itself aged k times while k < 50, and the list is empty from then on |
| `Cursor.Frame` | client/src/components/CustomCursor.tsx:80-94 | The `filter` loop returns `Step` of the list and releases exactly the elements of the expiring particles |
| `Cursor.ReleaseAll` | client/src/components/CustomCursor.tsx:104 | The `forEach` removes the element of every particle in the list from the container |
| `Cursor.EmissionScenario` | client/src/components/CustomCursor.tsx:34-58 | Moves to (10,0), (10,0), (20,0) from the initial state emit ids 0 and 1, and the last emission point ends at (20,0) |
| `Cursor.LifetimeScenario` | client/src/components/CustomCursor.tsx:78-97 | One emitted particle is still listed after 49 frames and gone after the 50th |
| `Slug.Slugify` | client/src/components/SkillsSection.tsx:105 | The slug contains no whitespace and no upper-case ASCII letter and is never longer than its input |
| `Slug.SlugifyCollapsesRun` | client/src/components/SkillsSection.tsx:105 | Each maximal whitespace run, of any length, becomes exactly one '-', and the text on either side is slugged on its own |
| `Slug.SlugifyConcat` | client/src/components/SkillsSection.tsx:105 | Slugging distributes over concatenation unless the join falls inside a whitespace run |
| `Slug.SlugifySpaceRun` | client/src/components/SkillsSection.tsx:105 | A non-empty all-whitespace string becomes "-" |
| `Slug.SlugifyNoSpace` | client/src/components/SkillsSection.tsx:105 | On text without whitespace the slug is the ASCII lower-casing |
| `Slug.SlugifyIdempotent` | client/src/components/SkillsSection.tsx:105 | Slugging twice equals slugging once |
| `Skills.Categories` | client/src/components/SkillsSection.tsx:49 | The category list has no duplicates, and a category is in it iff some skill has it |
| `Skills.CategoriesInFirstAppearanceOrder` | client/src/components/SkillsSection.tsx:49 | Categories are in first-appearance order: every skill of a later category is preceded by a skill of each earlier one |
| `Skills.CategorySkills` | client/src/components/SkillsSection.tsx:100 | A category's group holds exactly the skills of that category, and is no longer than the list |
| `Skills.CategorySkillsConcat` | client/src/components/SkillsSection.tsx:100 | The filter keeps the original order: filtering a concatenation concatenates the filtered parts |
| `Skills.CategorySkillsSingleton` | client/src/components/SkillsSection.tsx:100 | A single skill is kept exactly when it has the category; with the concatenation law this fixes each group, in order |
| `Skills.CategoryGroupNonEmpty` | client/src/components/SkillsSection.tsx:99-100 | Every listed category has at least one skill |
| `Skills.GroupsPartitionSkills` | client/src/components/SkillsSection.tsx:99-100 | The group sizes over all categories add up to the number of skills |
| `Skills.Cards` | client/src/components/SkillsSection.tsx:99-113 | One card per category, in category order. Each card's displayed count equals its group's length and is positive. Its members are the category's filtered group in original order, and its test-id slug is the slug of its category, so it has no whitespace |
| `Skills.SkillBar.constructor` | client/src/components/SkillsSection.tsx:13-14 | A bar starts at progress 0, not in view, no timer |
| `Skills.SkillBar.EnterView` | client/src/components/SkillsSection.tsx:15-22 | Coming into view arms the timer the first time only and leaves progress unchanged |
| `Skills.SkillBar.TimerFires` | client/src/components/SkillsSection.tsx:22-24 | The timer sets progress to the skill's proficiency; progress is only ever 0 or the proficiency, and non-zero only in view |
| `Skills.SkillBar.Unmount` | client/src/components/SkillsSection.tsx:25 | The clean-up clears a pending timer and changes nothing else |
| `Hero.TypingClosedForm` | client/src/components/HeroSection.tsx:13-22 | Tick k ≤ len(text)+1 shows text[..k−1] with index k; every later tick shows the whole text with the interval cleared |
| `Hero.TitleShownFrom` | client/src/components/HeroSection.tsx:10-22 | The banner's title is shown whole exactly from tick len(title)+1 on |
| `Hero.TypingPrefixGrows` | client/src/components/HeroSection.tsx:16-18 | The shown text is always a prefix of the title and never shrinks across ticks |
| `Hero.BlinkParity` | client/src/components/HeroSection.tsx:28-30 | After n blinks the caret equals its start value iff n is even |
| `Hero.HeroText.constructor` | client/src/components/HeroSection.tsx:9-11 | Empty text, index 0, caret shown, both intervals set |
| `Hero.HeroText.TypeTick` | client/src/components/HeroSection.tsx:15-21 | One typing tick: the state follows the interval callback, the old text is a prefix of the new, and both are prefixes of the title |
| `Hero.HeroText.BlinkTick` | client/src/components/HeroSection.tsx:28-30 | The caret flips; typing state untouched |
| `Hero.HeroText.Unmount` | client/src/components/HeroSection.tsx:24-32 | Both intervals are cleared; shown text and caret are kept |
| `Hero.TypeOut` | client/src/components/HeroSection.tsx:13-22 | After len(text)+1 ticks the whole title is shown; the next tick stops the interval and leaves the text as it is |
| `About.CountAt` | client/src/components/AboutSection.tsx:28-30 | The count is 0 at the start and equals `end` once elapsed ≥ duration; for end ≥ 0 and elapsed ≥ 0 it lies in [0, end] |
| `About.CountAtMonotone` | client/src/components/AboutSection.tsx:28-30 | For end ≥ 0 the count never decreases as time passes |
| `About.CountUp.constructor` | client/src/components/AboutSection.tsx:13-14 | Count 0, not in view, no start time, no frame requested |
| `About.CountUp.Default` | client/src/components/AboutSection.tsx:13-14 | Without a `duration` prop the count-up lasts the default 2000 ms; count 0, not in view, no start time, no frame requested |
| `About.CountUp.EnterView` | client/src/components/AboutSection.tsx:20-37 | Coming into view requests the first frame the first time only; before that no frame runs and the count stays 0 |
| `About.CountUp.Frame` | client/src/components/AboutSection.tsx:26-35 | The first frame (falsy start) fixes the start and shows 0. Each frame shows `CountAt` of the elapsed time, and another frame is requested iff elapsed < duration |
| `About.IconFor` | client/src/components/AboutSection.tsx:100 | "repos", "followers" and "stars" give their own icons, and every other key (including "activity") gives Activity |
| `Projects.TechRowOf` | client/src/components/ProjectsSection.tsx:101-111 | The named badges are the first min(3, len(tech)) entries in order, each with its slugged test id. A "+N" badge appears iff len(tech) > 3, with N = len(tech) − 3, and named badges plus N account for all of `tech` |
| `Projects.TagRow` | client/src/components/ProjectsSection.tsx:75-83 | The tag row is rendered iff tags are present and non-empty, and then shows every tag in order |
| `Projects.TechTestIdSlug` | client/src/components/ProjectsSection.tsx:103 | The slug part of every tech test id has no whitespace and is a fixed point of the slug |

## Left out

- DOM work is not modelled: element creation, classes, inline styles, the glow and box-shadow strings (`CustomCursor.tsx:39-47`, `89-91`). A particle's element is reduced to "present or not" plus membership in `attached`.
- The "clickable" classification (`CustomCursor.tsx:25-30`) depends on `closest` and `getComputedStyle`. It is a boolean parameter of `OnMove`.
- Floating point is not modelled. Opacity and scale are integer hundredths, and the distance test is `dx*dx + dy*dy > 25` on integer coordinates. With repeated `-= 0.02` in doubles, the tick on which the last step reaches ≤ 0 may differ from 50; the model makes no claim about that.
- The count-up uses integer milliseconds and exact floor division, not `(currentTime - startTime) / duration` in doubles. `toLocaleString` formatting is left out.
- About.CountUp.constructor: requires a positive duration. The only caller uses the default of 2000 ms, and a zero duration would divide by zero in the source.
- Timers, intervals and `requestAnimationFrame` are explicit method calls. Their timing (100 ms, 500 ms, 200 ms, display refresh) is not modelled.
- A bounded steady-state list size under continuous movement is not proved, because it depends on how many moves arrive between frames.
- Slug.Slugify: lower-cases ASCII letters only. Unicode case mapping is not modelled; whitespace is the full set matched by `\s`.
- About.IconFor: looks keys up in a plain map. A JavaScript object literal also answers for inherited names such as "constructor", and those would not fall back to Activity.
- About.CountUp.EnterView: the effect also re-runs when `end` or `duration` changes (`AboutSection.tsx:38`). A re-run resets the start time, and since the effect has no clean-up the previous frame loop keeps running beside the new one. The model keeps `end` and `duration` fixed for the lifetime of a count-up and runs one frame loop.
- Skills.SkillBar.EnterView: the effect also re-runs when `skill.proficiency` changes. The model keeps a bar's skill fixed.
- framer-motion variants, intersection-observer thresholds, Tailwind classes and all JSX layout are not modelled. This includes ContactSection.tsx and ContentSection.tsx; the caret blink in ContactSection.tsx is the same toggle as `Hero.HeroText.BlinkTick`.
- client/src/pages/Home.tsx (data fetching and the loading switch), server/storage.ts (fixed collections) and shared/schema.ts (schemas) are not part of this model. Only the `Skill` and `Project` record shapes are kept, as datatypes.
