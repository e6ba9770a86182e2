/** The route handlers over a mutable store: each method runs the handler's
    lookups and ownership check in the source's order, then updates the
    session's tables in place. Each is proved to give the response and the
    new state that the matching function of `Handlers` describes, and to keep
    the store invariant. */
module Routes {
  import opened Models
  import opened Database
  import opened Handlers
  import History

  class Ledger {
    var users: map<int, User>
    var posts: map<int, Post>
    var children: map<int, Child>
    var tasks: map<int, Task>
    var rewards: map<int, Reward>
    var nextChildId: int
    var nextTaskId: int
    var nextRewardId: int

    /** The tables as one value. */
    function Snapshot(): Db
      reads this
    {
      Db(users, posts, children, tasks, rewards, nextChildId, nextTaskId, nextRewardId)
    }

    ghost predicate Valid()
      reads this
    {
      Database.Valid(Snapshot())
    }

    /** A store holding the registered accounts and their posts, and no
        children, tasks or rewards yet. */
    constructor (users: map<int, User>, posts: map<int, Post>)
      requires forall k :: k in users ==> users[k].id == k
      requires forall k :: k in posts ==> posts[k].id == k
      requires UniqueAccounts(users)
      requires forall k :: k in posts ==> posts[k].userId in users
      ensures Snapshot() == Db(users, posts, map[], map[], map[], 1, 1, 1)
      ensures Valid()
    {
      this.users := users;
      this.posts := posts;
      children, tasks, rewards := map[], map[], map[];
      nextChildId, nextTaskId, nextRewardId := 1, 1, 1;
      InitialValid(users, posts);
    }

    method UpdatePost(actor: Actor, postId: int, form: Option<PostForm>) returns (r: Outcome)
      requires Valid()
      modifies this
      ensures Step(r, Snapshot()) == Handlers.UpdatePost(old(Snapshot()), actor, postId, form)
      ensures Valid()
    {
      if actor.Anonymous? { return Fail(LoginRequired); }
      if postId !in posts { return Fail(NotFound); }
      var post := posts[postId];
      if post.userId != actor.id { return Fail(Forbidden); }
      if form.None? { return FormShown; }
      posts := posts[postId := post.(title := form.value.title, content := form.value.content)];
      r := Done;
      History.UpdatePostKeepsValid(old(Snapshot()), actor, postId, form);
    }

    method DeletePost(actor: Actor, postId: int) returns (r: Outcome)
      requires Valid()
      modifies this
      ensures Step(r, Snapshot()) == Handlers.DeletePost(old(Snapshot()), actor, postId)
      ensures Valid()
    {
      if actor.Anonymous? { return Fail(LoginRequired); }
      if postId !in posts { return Fail(NotFound); }
      if posts[postId].userId != actor.id { return Fail(Forbidden); }
      posts := posts - {postId};
      r := Done;
      History.DeletePostKeepsValid(old(Snapshot()), actor, postId);
    }

    method AddChild(actor: Actor, form: Option<ChildForm>) returns (r: Outcome)
      requires Valid() && SignedInAs(Snapshot(), actor)
      modifies this
      ensures Step(r, Snapshot()) == Handlers.AddChild(old(Snapshot()), actor, form)
      ensures Valid()
    {
      if actor.Anonymous? { return Fail(LoginRequired); }
      if form.None? { return FormShown; }
      var child := NewChild(nextChildId, form.value.name, actor.id);
      children := children[child.id := child];
      nextChildId := nextChildId + 1;
      r := Done;
      History.AddChildKeepsValid(old(Snapshot()), actor, form);
    }

    /** The child detail page; reads the store and changes nothing. */
    method ViewChild(actor: Actor, childId: int) returns (r: Response<ChildPage>)
      ensures r == Handlers.ViewChild(Snapshot(), actor, childId)
    {
      if childId !in children { return Refused(NotFound); }
      var child := children[childId];
      if !(actor.Member? && child.parentId == actor.id) { return Refused(Forbidden); }
      r := Page(ChildPage(child, TasksOf(Snapshot(), childId), RewardsOf(Snapshot(), childId)));
    }

    method UpdateChild(actor: Actor, childId: int, form: Option<ChildForm>) returns (r: Outcome)
      requires Valid()
      modifies this
      ensures Step(r, Snapshot()) == Handlers.UpdateChild(old(Snapshot()), actor, childId, form)
      ensures Valid()
    {
      if actor.Anonymous? { return Fail(LoginRequired); }
      if childId !in children { return Fail(NotFound); }
      var child := children[childId];
      if child.parentId != actor.id { return Fail(Forbidden); }
      if form.None? { return FormShown; }
      if form.value.picture.Some? {
        child := child.(picture := form.value.picture.value);
      }
      child := child.(name := form.value.name);
      children := children[childId := child];
      r := Done;
      History.UpdateChildKeepsValid(old(Snapshot()), actor, childId, form);
    }

    method RemoveChild(actor: Actor, childId: int) returns (r: Outcome)
      requires Valid()
      modifies this
      ensures Step(r, Snapshot()) == Handlers.RemoveChild(old(Snapshot()), actor, childId)
      ensures Valid()
    {
      if actor.Anonymous? { return Fail(LoginRequired); }
      if childId !in children { return Fail(NotFound); }
      if children[childId].parentId != actor.id { return Fail(Forbidden); }
      if TasksOf(Snapshot(), childId) != map[] || RewardsOf(Snapshot(), childId) != map[] {
        return Fail(IntegrityError);
      }
      children := children - {childId};
      r := Done;
      History.RemoveChildKeepsValid(old(Snapshot()), actor, childId);
    }

    method AddTask(actor: Actor, childId: int, form: Option<TaskForm>) returns (r: Outcome)
      requires Valid()
      modifies this
      ensures Step(r, Snapshot()) == Handlers.AddTask(old(Snapshot()), actor, childId, form)
      ensures Valid()
    {
      if actor.Anonymous? { return Fail(LoginRequired); }
      if childId !in children { return Fail(NotFound); }
      if children[childId].parentId != actor.id { return Fail(Forbidden); }
      if form.None? { return FormShown; }
      var f := form.value;
      var task := NewTask(nextTaskId, f.name, childId, Some(f.description), f.pointsAwarded);
      tasks := tasks[task.id := task];
      nextTaskId := nextTaskId + 1;
      r := Done;
      History.AddTaskKeepsValid(old(Snapshot()), actor, childId, form);
    }

    method RemoveTask(actor: Actor, childId: int, taskId: int) returns (r: Outcome)
      requires Valid()
      modifies this
      ensures Step(r, Snapshot()) == Handlers.RemoveTask(old(Snapshot()), actor, childId, taskId)
      ensures Valid()
    {
      if actor.Anonymous? { return Fail(LoginRequired); }
      if taskId !in tasks { return Fail(NotFound); }
      if childId !in children { return Fail(NotFound); }
      if children[childId].parentId != actor.id { return Fail(Forbidden); }
      tasks := tasks - {taskId};
      r := Done;
      History.RemoveTaskKeepsValid(old(Snapshot()), actor, childId, taskId);
    }

    method CheckTask(actor: Actor, childId: int, taskId: int) returns (r: Outcome)
      requires Valid()
      modifies this
      ensures Step(r, Snapshot()) == Handlers.CheckTask(old(Snapshot()), actor, childId, taskId)
      ensures Valid()
    {
      if actor.Anonymous? { return Fail(LoginRequired); }
      if taskId !in tasks { return Fail(NotFound); }
      var task := tasks[taskId];
      if childId !in children { return Fail(NotFound); }
      var child := children[childId];
      if child.parentId != actor.id { return Fail(Forbidden); }
      children := children[childId := child.(points := child.points + task.pointsAwarded)];
      tasks := tasks - {taskId};
      r := Done;
      History.CheckTaskKeepsValid(old(Snapshot()), actor, childId, taskId);
    }

    method AddReward(actor: Actor, childId: int, form: Option<RewardForm>) returns (r: Outcome)
      requires Valid()
      modifies this
      ensures Step(r, Snapshot()) == Handlers.AddReward(old(Snapshot()), actor, childId, form)
      ensures Valid()
    {
      if actor.Anonymous? { return Fail(LoginRequired); }
      if childId !in children { return Fail(NotFound); }
      if children[childId].parentId != actor.id { return Fail(Forbidden); }
      if form.None? { return FormShown; }
      var f := form.value;
      var reward := NewReward(nextRewardId, f.name, childId, Some(f.description), f.pointsRequired);
      rewards := rewards[reward.id := reward];
      nextRewardId := nextRewardId + 1;
      r := Done;
      History.AddRewardKeepsValid(old(Snapshot()), actor, childId, form);
    }

    method RemoveReward(actor: Actor, childId: int, rewardId: int) returns (r: Outcome)
      requires Valid()
      modifies this
      ensures Step(r, Snapshot()) == Handlers.RemoveReward(old(Snapshot()), actor, childId, rewardId)
      ensures Valid()
    {
      if actor.Anonymous? { return Fail(LoginRequired); }
      if rewardId !in rewards { return Fail(NotFound); }
      if childId !in children { return Fail(NotFound); }
      if children[childId].parentId != actor.id { return Fail(Forbidden); }
      rewards := rewards - {rewardId};
      r := Done;
      History.RemoveRewardKeepsValid(old(Snapshot()), actor, childId, rewardId);
    }

    method BuyReward(actor: Actor, childId: int, rewardId: int) returns (r: Outcome)
      requires Valid()
      modifies this
      ensures Step(r, Snapshot()) == Handlers.BuyReward(old(Snapshot()), actor, childId, rewardId)
      ensures Valid()
    {
      if actor.Anonymous? { return Fail(LoginRequired); }
      if rewardId !in rewards { return Fail(NotFound); }
      var reward := rewards[rewardId];
      if childId !in children { return Fail(NotFound); }
      var child := children[childId];
      if child.parentId != actor.id { return Fail(Forbidden); }
      children := children[childId := child.(points := child.points - reward.pointsRequired)];
      rewards := rewards - {rewardId};
      r := Done;
      History.BuyRewardKeepsValid(old(Snapshot()), actor, childId, rewardId);
    }
  }
}
