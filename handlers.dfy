/** What each route handler does to the database, as a function from the
    state before the request to the response and the state after it.

    Every handler looks its ids up first (a missing one is NotFound), then
    checks that the signed-in user owns the child (or wrote the post) and
    answers Forbidden otherwise, and only then touches the store. Routes
    behind `login_required` turn an anonymous visitor away before any of
    that. */
module Handlers {
  import opened Models
  import opened Database
  import opened NameOrder

  /** The visitor of a request: nobody, or the signed-in user with this id. */
  datatype Actor = Anonymous | Member(id: int)

  datatype Error =
    | LoginRequired   // login_required redirects to the login page
    | NotFound        // get_or_404 / first_or_404
    | Forbidden       // abort(403)
    | IntegrityError  // the commit is rejected by a NOT NULL column

  /** `Done`: the change is committed and the browser redirected.
      `FormShown`: a GET, or a submission that failed validation; the form
      page is rendered and nothing is stored. */
  datatype Outcome = Done | FormShown | Fail(error: Error)

  datatype Step = Step(outcome: Outcome, db: Db)

  /** A read-only page, or the error that replaced it. */
  datatype Response<T> = Page(value: T) | Refused(error: Error)

  // Validated form submissions. The points fields are `IntegerField`s
  // without `DataRequired`: a submission that omits one validates with no
  // value (`None`).
  datatype ChildForm = ChildForm(name: string, picture: Option<string>)
  datatype TaskForm = TaskForm(name: string, description: string, pointsAwarded: Option<int>)
  datatype RewardForm = RewardForm(name: string, description: string, pointsRequired: Option<int>)
  datatype PostForm = PostForm(title: string, content: string)

  /** The child detail page: the child and its tasks and rewards. */
  datatype ChildPage = ChildPage(child: Child, tasks: map<int, Task>, rewards: map<int, Reward>)

  /** The children page: a placeholder for a visitor who is not signed in,
      else the signed-in user's children. */
  datatype Listing = AnonymousPage | Listed(items: seq<Child>)

  /** The session's user is a stored account (the login manager loads it by id). */
  predicate SignedInAs(db: Db, actor: Actor) {
    actor.Member? ==> actor.id in db.users
  }

  /** `child.parent == current_user`. */
  predicate IsParent(actor: Actor, c: Child) {
    actor.Member? && c.parentId == actor.id
  }

  /** `post.author == current_user`. */
  predicate IsAuthor(actor: Actor, p: Post) {
    actor.Member? && p.userId == actor.id
  }

  /** The guard of the child routes: `get_or_404(child_id)`, then the parent check. */
  function ChildGuard(db: Db, actor: Actor, childId: int): (g: Option<Error>)
    ensures g == Some(NotFound) <==> childId !in db.children
    ensures g == Some(Forbidden) <==> childId in db.children && !IsParent(actor, db.children[childId])
    ensures g == None <==> childId in db.children && IsParent(actor, db.children[childId])
  {
    if childId !in db.children then Some(NotFound)
    else if !IsParent(actor, db.children[childId]) then Some(Forbidden)
    else None
  }

  /** The guard of the task and reward routes: login, then the item's
      `get_or_404`, then the child's, then the parent check. */
  function ItemGuard(db: Db, actor: Actor, itemFound: bool, childId: int): (g: Option<Error>)
    ensures g == Some(LoginRequired) <==> actor.Anonymous?
    ensures g == Some(NotFound) <==> actor.Member? && (!itemFound || childId !in db.children)
    ensures g == Some(Forbidden) <==>
      actor.Member? && itemFound && childId in db.children && !IsParent(actor, db.children[childId])
    ensures g == None <==> itemFound && childId in db.children && IsParent(actor, db.children[childId])
  {
    if actor.Anonymous? then Some(LoginRequired)
    else if !itemFound then Some(NotFound)
    else ChildGuard(db, actor, childId)
  }

  /** The guard of the post routes: login, `get_or_404(post_id)`, then the author check. */
  function PostGuard(db: Db, actor: Actor, postId: int): (g: Option<Error>)
    ensures g == Some(LoginRequired) <==> actor.Anonymous?
    ensures g == Some(NotFound) <==> actor.Member? && postId !in db.posts
    ensures g == Some(Forbidden) <==> actor.Member? && postId in db.posts && !IsAuthor(actor, db.posts[postId])
    ensures g == None <==> postId in db.posts && IsAuthor(actor, db.posts[postId])
  {
    if actor.Anonymous? then Some(LoginRequired)
    else if postId !in db.posts then Some(NotFound)
    else if !IsAuthor(actor, db.posts[postId]) then Some(Forbidden)
    else None
  }

  // ---------------------------------------------------------------- posts

  function UpdatePost(db: Db, actor: Actor, postId: int, form: Option<PostForm>): Step {
    match PostGuard(db, actor, postId)
    case Some(e) => Step(Fail(e), db)
    case None =>
      if form.None? then Step(FormShown, db)
      else
        var p := db.posts[postId];
        Step(Done, db.(posts := db.posts[postId := p.(title := form.value.title, content := form.value.content)]))
  }

  function DeletePost(db: Db, actor: Actor, postId: int): Step {
    match PostGuard(db, actor, postId)
    case Some(e) => Step(Fail(e), db)
    case None => Step(Done, db.(posts := db.posts - {postId}))
  }

  // ------------------------------------------------------------- children

  function AddChild(db: Db, actor: Actor, form: Option<ChildForm>): Step {
    if actor.Anonymous? then Step(Fail(LoginRequired), db)
    else if form.None? then Step(FormShown, db)
    else
      var id := db.nextChildId;
      Step(Done, db.(children := db.children[id := NewChild(id, form.value.name, actor.id)],
                     nextChildId := id + 1))
  }

  /** The detail view is not behind `login_required`: an anonymous visitor is
      refused by the parent check. */
  function ViewChild(db: Db, actor: Actor, childId: int): Response<ChildPage> {
    match ChildGuard(db, actor, childId)
    case Some(e) => Refused(e)
    case None => Page(ChildPage(db.children[childId], TasksOf(db, childId), RewardsOf(db, childId)))
  }

  /** `name` is always replaced, `picture` only when a file was uploaded. */
  function UpdateChild(db: Db, actor: Actor, childId: int, form: Option<ChildForm>): Step {
    if actor.Anonymous? then Step(Fail(LoginRequired), db)
    else match ChildGuard(db, actor, childId)
    case Some(e) => Step(Fail(e), db)
    case None =>
      if form.None? then Step(FormShown, db)
      else
        var c := db.children[childId];
        var picture := if form.value.picture.Some? then form.value.picture.value else c.picture;
        Step(Done, db.(children := db.children[childId := c.(name := form.value.name, picture := picture)]))
  }

  /** The relationships declare no delete cascade, so at commit the ORM sets
      the `child_id` of the child's tasks and rewards to NULL, which their
      NOT NULL columns reject: a child with any of them cannot be removed. */
  function RemoveChild(db: Db, actor: Actor, childId: int): Step {
    if actor.Anonymous? then Step(Fail(LoginRequired), db)
    else match ChildGuard(db, actor, childId)
    case Some(e) => Step(Fail(e), db)
    case None =>
      if TasksOf(db, childId) != map[] || RewardsOf(db, childId) != map[] then Step(Fail(IntegrityError), db)
      else Step(Done, db.(children := db.children - {childId}))
  }

  /** The signed-in user's children, ordered by name. */
  ghost function ChildrenOf(db: Db, userId: int): seq<Child> {
    var ids := set k | k in db.children && db.children[k].parentId == userId;
    var order := SortByName(ids, db.children);
    seq(|order|, i requires 0 <= i < |order| => db.children[order[i]])
  }

  /** The children page is open to anyone; the signed-in user is looked up
      again by username (`first_or_404`). */
  ghost function Children(db: Db, actor: Actor): Response<Listing> {
    if actor.Anonymous? then Page(AnonymousPage)
    else if actor.id !in db.users then Refused(NotFound)
    else Page(Listed(ChildrenOf(db, actor.id)))
  }

  // ---------------------------------------------------------------- tasks

  function AddTask(db: Db, actor: Actor, childId: int, form: Option<TaskForm>): Step {
    if actor.Anonymous? then Step(Fail(LoginRequired), db)
    else match ChildGuard(db, actor, childId)
    case Some(e) => Step(Fail(e), db)
    case None =>
      if form.None? then Step(FormShown, db)
      else
        var id := db.nextTaskId;
        var f := form.value;
        Step(Done, db.(tasks := db.tasks[id := NewTask(id, f.name, childId, Some(f.description), f.pointsAwarded)],
                       nextTaskId := id + 1))
  }

  function RemoveTask(db: Db, actor: Actor, childId: int, taskId: int): Step {
    match ItemGuard(db, actor, taskId in db.tasks, childId)
    case Some(e) => Step(Fail(e), db)
    case None => Step(Done, db.(tasks := db.tasks - {taskId}))
  }

  /** Credits the child named in the URL, whichever child the task is attached to. */
  function CheckTask(db: Db, actor: Actor, childId: int, taskId: int): Step {
    match ItemGuard(db, actor, taskId in db.tasks, childId)
    case Some(e) => Step(Fail(e), db)
    case None =>
      var c := db.children[childId];
      Step(Done, db.(children := db.children[childId := c.(points := c.points + db.tasks[taskId].pointsAwarded)],
                     tasks := db.tasks - {taskId}))
  }

  // -------------------------------------------------------------- rewards

  function AddReward(db: Db, actor: Actor, childId: int, form: Option<RewardForm>): Step {
    if actor.Anonymous? then Step(Fail(LoginRequired), db)
    else match ChildGuard(db, actor, childId)
    case Some(e) => Step(Fail(e), db)
    case None =>
      if form.None? then Step(FormShown, db)
      else
        var id := db.nextRewardId;
        var f := form.value;
        Step(Done, db.(rewards := db.rewards[id := NewReward(id, f.name, childId, Some(f.description), f.pointsRequired)],
                       nextRewardId := id + 1))
  }

  function RemoveReward(db: Db, actor: Actor, childId: int, rewardId: int): Step {
    match ItemGuard(db, actor, rewardId in db.rewards, childId)
    case Some(e) => Step(Fail(e), db)
    case None => Step(Done, db.(rewards := db.rewards - {rewardId}))
  }

  /** Debits the child named in the URL; there is no balance check. */
  function BuyReward(db: Db, actor: Actor, childId: int, rewardId: int): Step {
    match ItemGuard(db, actor, rewardId in db.rewards, childId)
    case Some(e) => Step(Fail(e), db)
    case None =>
      var c := db.children[childId];
      Step(Done, db.(children := db.children[childId := c.(points := c.points - db.rewards[rewardId].pointsRequired)],
                     rewards := db.rewards - {rewardId}))
  }
}
