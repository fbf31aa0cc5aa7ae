/**
 * The project record of models/Project.js with its embedded like, feedback and
 * comment entries. `Validates` is what `save()` checks; `NewProject` applies
 * the schema defaults to a creation request.
 */
module ProjectModel {
  import opened Base
  import Text

  const TitleMaxLength: int := 100
  const DescriptionMaxLength: int := 1000
  const Statuses: set<string> := {"In Progress", "Completed", "Abandoned", "Released"}
  const DefaultStatus: string := "In Progress"
  const DifficultyLevels: set<string> := {"Beginner", "Intermediate", "Advanced"}
  const DefaultVersion: string := "v1.0"
  const DefaultLicense: string := "MIT"

  /** A like entry: who liked, and when (`Date.now` by default). */
  datatype Like = Like(user: Option<Id>, date: Time)

  /** A feedback entry; its text is required. */
  datatype Feedback = Feedback(user: Option<Id>, feedback: string, date: Time)

  /** A comment entry; its text is required. */
  datatype Comment = Comment(user: Option<Id>, comment: string, date: Time)

  /**
   * A stored project. `user` is the owner. Required strings that a request
   * left out are held as "", which the required validator rejects exactly as
   * it rejects `undefined`.
   */
  datatype Project = Project(
    title: string,
    description: string,
    createdAt: Time,
    updatedAt: Time,
    image: Option<string>,
    user: Option<Id>,
    views: int,
    forks: int,
    stars: int,
    downloads: int,
    collaborators: seq<Id>,
    feedback: seq<Feedback>,
    likes: seq<Like>,
    comments: seq<Comment>,
    version: string,
    status: string,
    difficultyLevel: Option<string>,
    license: string,
    isPublic: bool,
    categories: seq<string>,
    tags: seq<string>)

  /** The validators `save()` runs on a project and its embedded entries; lengths are JavaScript's. */
  predicate Validates(p: Project) {
    && p.title != "" && Text.Utf16Length(p.title) <= TitleMaxLength
    && p.description != "" && Text.Utf16Length(p.description) <= DescriptionMaxLength
    && p.user.Some?
    && p.status in Statuses
    && (p.difficultyLevel.Some? ==> p.difficultyLevel.value in DifficultyLevels)
    && EntriesHaveText(p.feedback, p.comments)
  }

  /** The required text of every feedback and comment entry is there. */
  predicate EntriesHaveText(feedback: seq<Feedback>, comments: seq<Comment>) {
    && (forall k :: 0 <= k < |feedback| ==> feedback[k].feedback != "")
    && (forall k :: 0 <= k < |comments| ==> comments[k].comment != "")
  }

  /**
   * The fields of a creation request body that the model follows. The body is
   * spread into the new document, so it may set the counters, the embedded
   * lists and the dates as well as the descriptive fields.
   */
  datatype Draft = Draft(
    title: Option<string>,
    description: Option<string>,
    image: Option<string>,
    collaborators: Option<seq<Id>>,
    version: Option<string>,
    status: Option<string>,
    difficultyLevel: Option<string>,
    license: Option<string>,
    isPublic: Option<bool>,
    categories: Option<seq<string>>,
    tags: Option<seq<string>>,
    createdAt: Option<Time>,
    updatedAt: Option<Time>,
    views: Option<int>,
    forks: Option<int>,
    stars: Option<int>,
    downloads: Option<int>,
    feedback: Option<seq<Feedback>>,
    likes: Option<seq<Like>>,
    comments: Option<seq<Comment>>)

  /**
   * `new Project({ ...draft, user: owner, collaborators })` at time `now`:
   * the given values, and the schema default for every path left undefined.
   * The owner and the collaborators given here override the body's.
   */
  function NewProject(d: Draft, owner: Id, collaborators: seq<Id>, now: Time): (p: Project)
    ensures p.user == Some(owner) && p.collaborators == collaborators
    ensures p.title == d.title.GetOr("") && p.description == d.description.GetOr("")
    ensures p.createdAt == d.createdAt.GetOr(now) && p.updatedAt == d.updatedAt.GetOr(now)
    ensures p.views == d.views.GetOr(0) && p.forks == d.forks.GetOr(0)
    ensures p.stars == d.stars.GetOr(0) && p.downloads == d.downloads.GetOr(0)
    ensures p.likes == d.likes.GetOr([]) && p.feedback == d.feedback.GetOr([]) && p.comments == d.comments.GetOr([])
    ensures p.status == d.status.GetOr(DefaultStatus)
    ensures p.version == d.version.GetOr(DefaultVersion)
    ensures p.license == d.license.GetOr(DefaultLicense)
    ensures p.isPublic == d.isPublic.GetOr(true)
    ensures p.difficultyLevel == d.difficultyLevel
  {
    Project(d.title.GetOr(""), d.description.GetOr(""), d.createdAt.GetOr(now), d.updatedAt.GetOr(now),
            d.image, Some(owner),
            d.views.GetOr(0), d.forks.GetOr(0), d.stars.GetOr(0), d.downloads.GetOr(0), collaborators,
            d.feedback.GetOr([]), d.likes.GetOr([]), d.comments.GetOr([]),
            d.version.GetOr(DefaultVersion), d.status.GetOr(DefaultStatus), d.difficultyLevel,
            d.license.GetOr(DefaultLicense), d.isPublic.GetOr(true),
            d.categories.GetOr([]), d.tags.GetOr([]))
  }

  /**
   * A creation request the validators accept, stated on the request itself:
   * title and description present, non-empty and within their bounds; status
   * absent or one of the four; difficulty absent or one of the three; every
   * feedback and comment entry it carries has its text.
   */
  predicate AcceptableDraft(d: Draft) {
    && Truthy(d.title) && Text.Utf16Length(d.title.value) <= TitleMaxLength
    && Truthy(d.description) && Text.Utf16Length(d.description.value) <= DescriptionMaxLength
    && (d.status.None? || d.status.value in Statuses)
    && (d.difficultyLevel.None? || d.difficultyLevel.value in DifficultyLevels)
    && EntriesHaveText(d.feedback.GetOr([]), d.comments.GetOr([]))
  }

  /** The validators accept a new project exactly when its request was acceptable. */
  lemma NewProjectValidatesIff(d: Draft, owner: Id, collaborators: seq<Id>, now: Time)
    ensures Validates(NewProject(d, owner, collaborators, now)) <==> AcceptableDraft(d)
  {
  }

  /**
   * Lengths are counted as JavaScript counts them: a title of 60 astral
   * characters, 120 code units, is too long although it has only 60
   * characters.
   */
  lemma AstralTitleTooLong(p: Project)
    requires |p.title| == 60 && forall i :: 0 <= i < |p.title| ==> Text.IsAstral(p.title[i])
    ensures !Validates(p)
  {
    Text.Utf16LengthOfAstral(p.title);
  }
}
