/**
 * The write handlers of controllers/projectController.js over the project
 * collection: create, like, unlike, feedback, comment, add and remove a team
 * member. Each is a function from the collection and the request to the reply
 * and the new collection. `caller` is `req.user._id`, absent when the request
 * carries no user.
 */
module ProjectController {
  import opened Base
  import opened ProjectModel

  type Projects = map<Id, Project>

  const ProjectNotFound: string := "Project not found"
  const NotAuthenticated: string := "User not authenticated"
  const AlreadyLiked: string := "Project already liked"
  const NotLikedYet: string := "Project not liked yet"
  const FeedbackRequired: string := "Feedback is required"
  const AlreadyMember: string := "User is already a team member"
  const NotMember: string := "User is not a team member"

  /** Errors thrown inside a handler; its catch block answers 400 `{ error: message }`. */
  datatype Fault =
    | ValidationFailed   // save() rejected the document
    | NoCaller           // `req.user._id` read with no `req.user`
    | LikeWithoutUser    // `like.user.toString()` on a like entry with no user

  datatype Body = Doc(project: Project) | Message(text: string) | Error(fault: Fault)

  /** A handler's reply and the collection after it. */
  datatype Step = Step(reply: Reply<Body>, projects: Projects)

  /** `project.save(); res.status(200).json(project)` for a changed document. */
  function SaveProject(projects: Projects, pid: Id, p: Project): (r: Step)
    ensures Validates(p) ==> r == Step(Reply(200, Doc(p)), projects[pid := p])
    ensures !Validates(p) ==> r == Step(Reply(400, Error(ValidationFailed)), projects)
  {
    if Validates(p) then Step(Reply(200, Doc(p)), projects[pid := p])
    else Step(Reply(400, Error(ValidationFailed)), projects)
  }

  // ---------------------------------------------------------------------------
  // createProject

  /**
   * `createProject`: the caller becomes the owner and the head of the
   * collaborators list, ahead of any supplied collaborators (duplicates kept).
   * `newId` is the id the database assigns.
   */
  function CreateProject(projects: Projects, newId: Id, caller: Option<Id>, d: Draft, now: Time): (r: Step)
    requires newId !in projects
    ensures r.reply.status == 201 <==> caller.Some? && AcceptableDraft(d)
    ensures r.reply.status != 201 ==> r.reply.status == 400 && r.projects == projects
    ensures r.reply.status == 201 ==>
      && r.reply.body.Doc?
      && var p := r.reply.body.project;
      && r.projects == projects[newId := p]
      && p.user == caller
      && p.collaborators == [caller.value] + d.collaborators.GetOr([])
      && p.title == d.title.value && p.description == d.description.value
      && p.likes == d.likes.GetOr([]) && p.createdAt == d.createdAt.GetOr(now)
  {
    if caller.None? then Step(Reply(400, Error(NoCaller)), projects)
    else
      var p := NewProject(d, caller.value, [caller.value] + d.collaborators.GetOr([]), now);
      NewProjectValidatesIff(d, caller.value, [caller.value] + d.collaborators.GetOr([]), now);
      if Validates(p) then Step(Reply(201, Doc(p)), projects[newId := p])
      else Step(Reply(400, Error(ValidationFailed)), projects)
  }

  // ---------------------------------------------------------------------------
  // Likes

  /** `likes.some(like => like.user?.toString() === userId.toString())`. */
  predicate LikedBy(likes: seq<Like>, u: Id) {
    exists k :: 0 <= k < |likes| && likes[k].user == Some(u)
  }

  /** The number of like entries by `u`. */
  function LikesBy(likes: seq<Like>, u: Id): nat
  {
    if |likes| == 0 then 0
    else (if likes[0].user == Some(u) then 1 else 0) + LikesBy(likes[1..], u)
  }

  /** The invariant the like handlers keep: nobody likes a project twice. */
  ghost predicate OneLikePerUser(likes: seq<Like>) {
    forall u :: LikesBy(likes, u) <= 1
  }

  /** Every like entry names its user. */
  predicate LikesHaveUsers(likes: seq<Like>) {
    forall k :: 0 <= k < |likes| ==> likes[k].user.Some?
  }

  lemma {:induction false} LikesByAppend(a: seq<Like>, b: seq<Like>, u: Id)
    ensures LikesBy(a + b, u) == LikesBy(a, u) + LikesBy(b, u)
  {
    if |a| == 0 {
      assert a + b == b;
    } else {
      assert (a + b)[1..] == a[1..] + b;
      LikesByAppend(a[1..], b, u);
    }
  }

  lemma {:induction false} LikesByPositiveIffLiked(likes: seq<Like>, u: Id)
    ensures LikesBy(likes, u) > 0 <==> LikedBy(likes, u)
  {
    if |likes| > 0 {
      LikesByPositiveIffLiked(likes[1..], u);
      if LikedBy(likes[1..], u) {
        var k :| 0 <= k < |likes[1..]| && likes[1..][k].user == Some(u);
        assert likes[k + 1].user == Some(u);
      }
      if LikedBy(likes, u) && likes[0].user != Some(u) {
        var k :| 0 <= k < |likes| && likes[k].user == Some(u);
        assert likes[1..][k - 1].user == Some(u);
      }
    }
  }

  /** `likeProject`. */
  function LikeProject(projects: Projects, pid: Id, caller: Option<Id>, now: Time): (r: Step)
    ensures pid !in projects ==> r.reply == Reply(404, Message(ProjectNotFound))
    ensures pid in projects && caller.None? ==> r.reply == Reply(401, Message(NotAuthenticated))
    ensures pid in projects && caller.Some? && LikedBy(projects[pid].likes, caller.value) ==>
              r.reply == Reply(400, Message(AlreadyLiked))
    ensures r.reply.status == 200 <==>
      pid in projects && caller.Some? && !LikedBy(projects[pid].likes, caller.value) && Validates(projects[pid])
    ensures r.reply.status != 200 ==> r.projects == projects
    ensures r.reply.status == 200 ==>
      && pid in projects && caller.Some? && !LikedBy(projects[pid].likes, caller.value)
      && r.projects == projects[pid := projects[pid].(likes := projects[pid].likes + [Like(caller, now)])]
  {
    if pid !in projects then Step(Reply(404, Message(ProjectNotFound)), projects)
    else if caller.None? then Step(Reply(401, Message(NotAuthenticated)), projects)
    else
      var p := projects[pid];
      if LikedBy(p.likes, caller.value) then Step(Reply(400, Message(AlreadyLiked)), projects)
      else SaveProject(projects, pid, p.(likes := p.likes + [Like(caller, now)]))
  }

  /** A successful like leaves exactly one like by the caller and keeps one like per user. */
  lemma LikeKeepsOneLikePerUser(projects: Projects, pid: Id, caller: Option<Id>, now: Time)
    requires pid in projects && OneLikePerUser(projects[pid].likes)
    requires LikeProject(projects, pid, caller, now).reply.status == 200
    ensures var after := LikeProject(projects, pid, caller, now).projects[pid].likes;
      OneLikePerUser(after) && LikesBy(after, caller.value) == 1
  {
    var likes := projects[pid].likes;
    var entry := [Like(caller, now)];
    var after := likes + entry;
    assert LikeProject(projects, pid, caller, now).projects[pid].likes == after;
    LikesByPositiveIffLiked(likes, caller.value);
    forall u
      ensures LikesBy(after, u) <= 1
    {
      LikesByAppend(likes, entry, u);
      assert entry[1..] == [];
    }
    LikesByAppend(likes, entry, caller.value);
    assert entry[1..] == [];
  }

  /** Where `findIndex` stops: a like by the user, the end of the list, or a throw on an entry with no user. */
  datatype Search = Found(index: nat) | Absent | Crashed

  /** `likes.findIndex(like => like.user.toString() === userId.toString())`. */
  function FindLike(likes: seq<Like>, u: Id): (r: Search)
    ensures r.Found? ==> && r.index < |likes| && likes[r.index].user == Some(u)
                         && forall k :: 0 <= k < r.index ==> likes[k].user.Some? && likes[k].user != Some(u)
    ensures r.Absent? ==> forall k :: 0 <= k < |likes| ==> likes[k].user.Some? && likes[k].user != Some(u)
    ensures r.Crashed? ==> exists k :: 0 <= k < |likes| && likes[k].user.None?
                                         && forall j :: 0 <= j < k ==> likes[j].user.Some? && likes[j].user != Some(u)
    ensures LikesHaveUsers(likes) ==> !r.Crashed?
    decreases |likes|
  {
    if |likes| == 0 then Absent
    else if likes[0].user.None? then Crashed
    else if likes[0].user == Some(u) then Found(0)
    else match FindLike(likes[1..], u)
      case Found(i) => Found(i + 1)
      case Absent => Absent
      case Crashed => Crashed
  }

  /** The list with entry `i` spliced out (`splice(i, 1)`). */
  function RemoveAt<T>(s: seq<T>, i: nat): (r: seq<T>)
    requires i < |s|
    ensures |r| == |s| - 1
  {
    s[..i] + s[i + 1..]
  }

  /** `unlikeProject`. */
  function UnlikeProject(projects: Projects, pid: Id, caller: Option<Id>): (r: Step)
    ensures pid !in projects ==> r.reply == Reply(404, Message(ProjectNotFound))
    ensures pid in projects && caller.None? ==> r.reply == Reply(401, Message(NotAuthenticated))
    ensures pid in projects && caller.Some? && LikesHaveUsers(projects[pid].likes)
            && !LikedBy(projects[pid].likes, caller.value) ==>
              r.reply == Reply(400, Message(NotLikedYet))
    ensures r.reply.status == 200 <==>
      pid in projects && caller.Some? && FindLike(projects[pid].likes, caller.value).Found? && Validates(projects[pid])
    ensures pid in projects && caller.Some? && LikesHaveUsers(projects[pid].likes)
            && LikedBy(projects[pid].likes, caller.value) && Validates(projects[pid]) ==>
              r.reply.status == 200
    ensures r.reply.status != 200 ==> r.projects == projects
    ensures r.reply.status == 200 ==>
      && pid in projects && caller.Some?
      && var likes := projects[pid].likes;
      && FindLike(likes, caller.value).Found?
      && r.projects == projects[pid := projects[pid].(likes := RemoveAt(likes, FindLike(likes, caller.value).index))]
  {
    if pid !in projects then Step(Reply(404, Message(ProjectNotFound)), projects)
    else if caller.None? then Step(Reply(401, Message(NotAuthenticated)), projects)
    else
      var p := projects[pid];
      match FindLike(p.likes, caller.value)
      case Crashed => Step(Reply(400, Error(LikeWithoutUser)), projects)
      case Absent => Step(Reply(400, Message(NotLikedYet)), projects)
      case Found(i) => SaveProject(projects, pid, p.(likes := RemoveAt(p.likes, i)))
  }

  lemma {:induction false} LikesByRemoveAt(likes: seq<Like>, i: nat, u: Id)
    requires i < |likes|
    ensures LikesBy(likes, u) == LikesBy(RemoveAt(likes, i), u) + (if likes[i].user == Some(u) then 1 else 0)
  {
    assert likes == likes[..i] + [likes[i]] + likes[i + 1..];
    LikesByAppend(likes[..i] + [likes[i]], likes[i + 1..], u);
    LikesByAppend(likes[..i], [likes[i]], u);
    LikesByAppend(likes[..i], likes[i + 1..], u);
    assert [likes[i]][1..] == [];
  }

  /**
   * A successful unlike removes exactly one like by the caller and no like by
   * anyone else; under the one-like invariant the caller has no like left.
   */
  lemma UnlikeRemovesOneLike(projects: Projects, pid: Id, caller: Option<Id>)
    requires UnlikeProject(projects, pid, caller).reply.status == 200
    ensures pid in projects && caller.Some?
    ensures var before := projects[pid].likes;
      var after := UnlikeProject(projects, pid, caller).projects[pid].likes;
      && LikesBy(after, caller.value) == LikesBy(before, caller.value) - 1
      && (forall v :: v != caller.value ==> LikesBy(after, v) == LikesBy(before, v))
      && (OneLikePerUser(before) ==> OneLikePerUser(after) && !LikedBy(after, caller.value))
  {
    var before := projects[pid].likes;
    var i := FindLike(before, caller.value).index;
    var after := RemoveAt(before, i);
    assert UnlikeProject(projects, pid, caller).projects[pid].likes == after;
    LikesByRemoveAt(before, i, caller.value);
    forall v | v != caller.value
      ensures LikesBy(after, v) == LikesBy(before, v)
    {
      LikesByRemoveAt(before, i, v);
    }
    if OneLikePerUser(before) {
      forall v
        ensures LikesBy(after, v) <= 1
      {
        LikesByRemoveAt(before, i, v);
      }
      LikesByPositiveIffLiked(after, caller.value);
    }
  }

  /**
   * Like followed by unlike restores the collection, provided every existing
   * like entry names a user (an entry without one makes unlike throw first).
   */
  lemma LikeThenUnlikeRestores(projects: Projects, pid: Id, u: Id, now: Time)
    requires pid in projects && LikesHaveUsers(projects[pid].likes)
    requires LikeProject(projects, pid, Some(u), now).reply.status == 200
    ensures var liked := LikeProject(projects, pid, Some(u), now).projects;
      UnlikeProject(liked, pid, Some(u)) == Step(Reply(200, Doc(projects[pid])), projects)
  {
    var p := projects[pid];
    var likes := p.likes + [Like(Some(u), now)];
    var liked := LikeProject(projects, pid, Some(u), now).projects;
    assert liked[pid] == p.(likes := likes);
    assert FindLike(p.likes, u).Absent?;
    FindLikeAfterAbsent(p.likes, Like(Some(u), now), u);
    assert RemoveAt(likes, |p.likes|) == p.likes;
    assert p.(likes := likes).(likes := p.likes) == p;
    assert Validates(p) by {
      assert Validates(p.(likes := likes));
    }
    assert liked[pid := p] == projects;
  }

  lemma {:induction false} FindLikeAfterAbsent(likes: seq<Like>, last: Like, u: Id)
    requires FindLike(likes, u).Absent?
    requires last.user == Some(u)
    ensures FindLike(likes + [last], u) == Found(|likes|)
    decreases |likes|
  {
    if |likes| > 0 {
      assert (likes + [last])[1..] == likes[1..] + [last];
      FindLikeAfterAbsent(likes[1..], last, u);
    }
  }

  // ---------------------------------------------------------------------------
  // Feedback and comments

  /** `addFeedback`: the text is checked before the project is looked up. */
  function AddFeedback(projects: Projects, pid: Id, caller: Option<Id>, feedback: Option<string>, now: Time): (r: Step)
    ensures !Truthy(feedback) ==> r.reply == Reply(400, Message(FeedbackRequired))
    ensures Truthy(feedback) && pid !in projects ==> r.reply == Reply(404, Message(ProjectNotFound))
    ensures r.reply.status != 200 ==> r.projects == projects
    ensures r.reply.status == 200 ==>
      && Truthy(feedback) && pid in projects && caller.Some?
      && var p := projects[pid];
      && r.projects == projects[pid := p.(feedback := p.feedback + [Feedback(caller, feedback.value, now)])]
    ensures Truthy(feedback) && pid in projects && caller.Some? && Validates(projects[pid]) ==>
              r.reply.status == 200
  {
    if !Truthy(feedback) then Step(Reply(400, Message(FeedbackRequired)), projects)
    else if pid !in projects then Step(Reply(404, Message(ProjectNotFound)), projects)
    else if caller.None? then Step(Reply(400, Error(NoCaller)), projects)
    else
      var p := projects[pid];
      SaveProject(projects, pid, p.(feedback := p.feedback + [Feedback(caller, feedback.value, now)]))
  }

  /**
   * `addComment`: no check of the text up front; an empty or missing comment
   * is refused by the required validator when the project is saved.
   */
  function AddComment(projects: Projects, pid: Id, caller: Option<Id>, comment: Option<string>, now: Time): (r: Step)
    ensures pid !in projects ==> r.reply == Reply(404, Message(ProjectNotFound))
    ensures r.reply.status != 200 ==> r.projects == projects
    ensures r.reply.status == 200 ==>
      && Truthy(comment) && pid in projects && caller.Some?
      && var p := projects[pid];
      && r.projects == projects[pid := p.(comments := p.comments + [Comment(caller, comment.value, now)])]
    ensures pid in projects && caller.Some? && Validates(projects[pid]) ==>
              (r.reply.status == 200 <==> Truthy(comment))
  {
    if pid !in projects then Step(Reply(404, Message(ProjectNotFound)), projects)
    else if caller.None? then Step(Reply(400, Error(NoCaller)), projects)
    else
      var p := projects[pid];
      var entry := Comment(caller, comment.GetOr(""), now);
      var q := p.(comments := p.comments + [entry]);
      assert Validates(q) ==> q.comments[|p.comments|].comment != "";
      SaveProject(projects, pid, q)
  }

  /** What the write handlers keep of every stored project: it validates and nobody likes it twice. */
  ghost predicate Kept(projects: Projects) {
    forall pid :: pid in projects ==> Validates(projects[pid]) && OneLikePerUser(projects[pid].likes)
  }

  /** Replacing one project by a version that validates and has one like per user keeps the collection's invariant. */
  lemma KeptUpdate(projects: Projects, pid: Id, p: Project)
    requires Kept(projects) && Validates(p) && OneLikePerUser(p.likes)
    ensures Kept(projects[pid := p])
  {
    var m := projects[pid := p];
    forall q | q in m
      ensures Validates(m[q]) && OneLikePerUser(m[q].likes)
    {
      if q != pid {
        assert m[q] == projects[q];
      }
    }
  }

  /**
   * A feedback request keeps the invariant, and a successful one adds exactly
   * one entry, with the request's text, leaving the likes and the
   * collaborators as they were.
   */
  lemma AddFeedbackKeeps(projects: Projects, pid: Id, caller: Option<Id>, feedback: Option<string>, now: Time)
    requires Kept(projects)
    ensures var r := AddFeedback(projects, pid, caller, feedback, now);
      && Kept(r.projects)
      && (r.reply.status == 200 ==>
            && var before := projects[pid];
            && var after := r.projects[pid];
            && |after.feedback| == |before.feedback| + 1
            && after.feedback[|before.feedback|].feedback == feedback.value
            && after.likes == before.likes && after.collaborators == before.collaborators
            && after.comments == before.comments)
  {
    var r := AddFeedback(projects, pid, caller, feedback, now);
    if r.reply.status == 200 {
      KeptUpdate(projects, pid, r.projects[pid]);
    }
  }

  /**
   * A comment request keeps the invariant, and a successful one adds exactly
   * one entry, with the request's text, leaving the likes and the
   * collaborators as they were.
   */
  lemma AddCommentKeeps(projects: Projects, pid: Id, caller: Option<Id>, comment: Option<string>, now: Time)
    requires Kept(projects)
    ensures var r := AddComment(projects, pid, caller, comment, now);
      && Kept(r.projects)
      && (r.reply.status == 200 ==>
            && var before := projects[pid];
            && var after := r.projects[pid];
            && |after.comments| == |before.comments| + 1
            && after.comments[|before.comments|].comment == comment.value
            && after.likes == before.likes && after.collaborators == before.collaborators
            && after.feedback == before.feedback)
  {
    var r := AddComment(projects, pid, caller, comment, now);
    if r.reply.status == 200 {
      KeptUpdate(projects, pid, r.projects[pid]);
    }
  }

  /**
   * Creation keeps the invariant when the request body carries no like list
   * with a user twice; the body is spread into the document, so such a list
   * would be stored as given.
   */
  lemma CreateProjectKeeps(projects: Projects, newId: Id, caller: Option<Id>, d: Draft, now: Time)
    requires newId !in projects && Kept(projects)
    requires OneLikePerUser(d.likes.GetOr([]))
    ensures Kept(CreateProject(projects, newId, caller, d, now).projects)
  {
    var r := CreateProject(projects, newId, caller, d, now);
    if r.reply.status == 201 {
      KeptUpdate(projects, newId, r.reply.body.project);
    }
  }

  // ---------------------------------------------------------------------------
  // Team members

  /** `xs.filter(id => id !== x)`. */
  function Without(xs: seq<Id>, x: Id): (r: seq<Id>)
    ensures x !in r
    ensures forall y :: y in r ==> y in xs
    ensures x !in xs ==> r == xs
  {
    if |xs| == 0 then []
    else (if xs[0] == x then [] else [xs[0]]) + Without(xs[1..], x)
  }

  /** Removing `x` deletes all of its occurrences and keeps every other id as often as it was there. */
  lemma {:induction false} WithoutCounts(xs: seq<Id>, x: Id)
    ensures Count(Without(xs, x), x) == 0
    ensures forall y :: y != x ==> Count(Without(xs, x), y) == Count(xs, y)
    ensures |Without(xs, x)| == |xs| - Count(xs, x)
  {
    if |xs| > 0 {
      WithoutCounts(xs[1..], x);
      var head: seq<Id> := if xs[0] == x then [] else [xs[0]];
      forall y
        ensures Count(Without(xs, x), y) == Count(head, y) + Count(Without(xs[1..], x), y)
      {
        CountAppend(head, Without(xs[1..], x), y);
      }
    }
  }

  /** `addTeamMember`: append the id unless it is already a collaborator. */
  function AddTeamMember(projects: Projects, pid: Id, member: Id): (r: Step)
    ensures pid !in projects ==> r.reply == Reply(404, Message(ProjectNotFound))
    ensures pid in projects && member in projects[pid].collaborators ==>
              r.reply == Reply(400, Message(AlreadyMember))
    ensures r.reply.status == 200 <==>
      pid in projects && member !in projects[pid].collaborators && Validates(projects[pid])
    ensures r.reply.status != 200 ==> r.projects == projects
    ensures r.reply.status == 200 ==>
      && pid in projects && member !in projects[pid].collaborators
      && var p := projects[pid];
      && r.projects == projects[pid := p.(collaborators := p.collaborators + [member])]
  {
    if pid !in projects then Step(Reply(404, Message(ProjectNotFound)), projects)
    else
      var p := projects[pid];
      if member !in p.collaborators then SaveProject(projects, pid, p.(collaborators := p.collaborators + [member]))
      else Step(Reply(400, Message(AlreadyMember)), projects)
  }

  /** `removeTeamMember`: drop every occurrence of the id if it is a collaborator. */
  function RemoveTeamMember(projects: Projects, pid: Id, member: Id): (r: Step)
    ensures pid !in projects ==> r.reply == Reply(404, Message(ProjectNotFound))
    ensures pid in projects && member !in projects[pid].collaborators ==>
              r.reply == Reply(400, Message(NotMember))
    ensures r.reply.status == 200 <==>
      pid in projects && member in projects[pid].collaborators && Validates(projects[pid])
    ensures r.reply.status != 200 ==> r.projects == projects
    ensures r.reply.status == 200 ==>
      && pid in projects && member in projects[pid].collaborators
      && var p := projects[pid];
      && r.projects == projects[pid := p.(collaborators := Without(p.collaborators, member))]
  {
    if pid !in projects then Step(Reply(404, Message(ProjectNotFound)), projects)
    else
      var p := projects[pid];
      if member in p.collaborators then SaveProject(projects, pid, p.(collaborators := Without(p.collaborators, member)))
      else Step(Reply(400, Message(NotMember)), projects)
  }

  lemma {:induction false} WithoutAppended(xs: seq<Id>, x: Id)
    requires x !in xs
    ensures Without(xs + [x], x) == xs
  {
    if |xs| > 0 {
      assert (xs + [x])[1..] == xs[1..] + [x];
      WithoutAppended(xs[1..], x);
      assert xs == [xs[0]] + xs[1..];
    } else {
      assert xs + [x] == [x];
    }
  }

  /** Adding a new team member and then removing it restores the collection. */
  lemma AddThenRemoveTeamMember(projects: Projects, pid: Id, member: Id)
    requires AddTeamMember(projects, pid, member).reply.status == 200
    ensures var added := AddTeamMember(projects, pid, member).projects;
      RemoveTeamMember(added, pid, member) == Step(Reply(200, Doc(projects[pid])), projects)
  {
    var p := projects[pid];
    var q := p.(collaborators := p.collaborators + [member]);
    var added := AddTeamMember(projects, pid, member).projects;
    assert added[pid] == q;
    WithoutAppended(p.collaborators, member);
    assert q.(collaborators := Without(q.collaborators, member)) == p;
    assert Validates(p) by {
      assert Validates(q);
    }
    assert added[pid := p] == projects;
  }
}
