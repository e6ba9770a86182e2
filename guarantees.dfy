/** What each route promises, stated over the handler functions. */
module Guarantees {
  import opened Models
  import opened Database
  import opened NameOrder
  import opened Handlers

  // ---------------------------------------------------------------- posts

  /** update_post: login, then NotFound for a missing post, then Forbidden for
      anyone but its author; a valid submission changes only that post's
      title and content. */
  lemma UpdatePostEffect(db: Db, actor: Actor, postId: int, form: Option<PostForm>)
    ensures var s := UpdatePost(db, actor, postId, form);
      && (actor.Anonymous? ==> s.outcome == Fail(LoginRequired))
      && (actor.Member? && postId !in db.posts ==> s.outcome == Fail(NotFound))
      && (actor.Member? && postId in db.posts && !IsAuthor(actor, db.posts[postId]) ==> s.outcome == Fail(Forbidden))
      && (s.outcome == Done <==> postId in db.posts && IsAuthor(actor, db.posts[postId]) && form.Some?)
      && (s.outcome != Done ==> s.db == db)
      && (s.outcome == Done ==>
            && s.db.posts.Keys == db.posts.Keys
            && s.db.posts[postId].title == form.value.title
            && s.db.posts[postId].content == form.value.content
            && s.db.posts[postId].userId == db.posts[postId].userId
            && s.db.posts[postId].datePosted == db.posts[postId].datePosted
            && s.db.posts[postId] == db.posts[postId].(title := form.value.title, content := form.value.content)
            && (forall k :: k in db.posts && k != postId ==> s.db.posts[k] == db.posts[k])
            && s.db == db.(posts := s.db.posts))
  {
  }

  /** delete_post: the same guard; success removes that post and nothing else. */
  lemma DeletePostEffect(db: Db, actor: Actor, postId: int)
    ensures var s := DeletePost(db, actor, postId);
      && (actor.Anonymous? ==> s.outcome == Fail(LoginRequired))
      && (actor.Member? && postId !in db.posts ==> s.outcome == Fail(NotFound))
      && (actor.Member? && postId in db.posts && !IsAuthor(actor, db.posts[postId]) ==> s.outcome == Fail(Forbidden))
      && (s.outcome == Done <==> postId in db.posts && IsAuthor(actor, db.posts[postId]))
      && (s.outcome != Done ==> s.db == db)
      && (s.outcome == Done ==>
            && s.db.posts.Keys == db.posts.Keys - {postId}
            && (forall k :: k in s.db.posts ==> s.db.posts[k] == db.posts[k])
            && s.db == db.(posts := s.db.posts))
  {
  }

  // ------------------------------------------------------------- children

  /** add_child: a signed-in user's valid submission adds one child, under a
      key not in use, named as submitted, owned by that user, with 0 points
      and the default picture; no other row changes. */
  lemma AddChildEffect(db: Db, actor: Actor, form: Option<ChildForm>)
    requires Valid(db)
    ensures var s := AddChild(db, actor, form);
      && (actor.Anonymous? ==> s.outcome == Fail(LoginRequired))
      && (s.outcome == Done <==> actor.Member? && form.Some?)
      && (s.outcome != Done ==> s.db == db)
      && (s.outcome == Done ==>
            var id := db.nextChildId;
            && id !in db.children
            && s.db.children.Keys == db.children.Keys + {id}
            && s.db.children[id].id == id
            && s.db.children[id].parentId == actor.id
            && s.db.children[id].points == 0
            && s.db.children[id].picture == DefaultPicture
            && s.db.children[id].name == form.value.name
            && (forall k :: k in db.children ==> s.db.children[k] == db.children[k])
            && s.db.users == db.users && s.db.posts == db.posts
            && s.db.tasks == db.tasks && s.db.rewards == db.rewards)
  {
  }

  /** The detail page: NotFound for a missing child, Forbidden unless the
      visitor is its parent (an anonymous visitor never is); otherwise the
      child with exactly the tasks and rewards attached to it. */
  lemma ViewChildEffect(db: Db, actor: Actor, childId: int)
    ensures var r := ViewChild(db, actor, childId);
      && (r == Refused(NotFound) <==> childId !in db.children)
      && (r == Refused(Forbidden) <==> childId in db.children && !IsParent(actor, db.children[childId]))
      && (r.Page? <==> childId in db.children && IsParent(actor, db.children[childId]))
      && (r.Page? ==>
            && r.value.child == db.children[childId]
            && (forall k :: k in r.value.tasks <==> k in db.tasks && db.tasks[k].childId == childId)
            && (forall k :: k in r.value.tasks ==> r.value.tasks[k] == db.tasks[k])
            && (forall k :: k in r.value.rewards <==> k in db.rewards && db.rewards[k].childId == childId)
            && (forall k :: k in r.value.rewards ==> r.value.rewards[k] == db.rewards[k]))
  {
  }

  /** The guard shared by update_child, remove_child, add_task and
      add_reward: login, then NotFound for a missing child, then Forbidden
      unless the user is the child's parent, and a refused request changes
      nothing. */
  lemma ChildRoutesGuard(db: Db, actor: Actor, childId: int,
                         cf: Option<ChildForm>, tf: Option<TaskForm>, rf: Option<RewardForm>)
    ensures var outs := [UpdateChild(db, actor, childId, cf), RemoveChild(db, actor, childId),
                         AddTask(db, actor, childId, tf), AddReward(db, actor, childId, rf)];
      forall i :: 0 <= i < |outs| ==>
        && (actor.Anonymous? ==> outs[i].outcome == Fail(LoginRequired))
        && (actor.Member? && childId !in db.children ==> outs[i].outcome == Fail(NotFound))
        && (actor.Member? && childId in db.children && !IsParent(actor, db.children[childId]) ==>
              outs[i].outcome == Fail(Forbidden))
        && (outs[i].outcome.Fail? ==> outs[i].db == db)
  {
  }

  /** update_child: a valid submission replaces the name, and the picture
      only when one was uploaded; the balance and the parent never change. */
  lemma UpdateChildEffect(db: Db, actor: Actor, childId: int, form: Option<ChildForm>)
    ensures var s := UpdateChild(db, actor, childId, form);
      && (s.outcome == Done <==> childId in db.children && IsParent(actor, db.children[childId]) && form.Some?)
      && (s.outcome != Done ==> s.db == db)
      && (s.outcome == Done ==>
            var before, after := db.children[childId], s.db.children[childId];
            && s.db.children.Keys == db.children.Keys
            && after.name == form.value.name
            && after.picture == (if form.value.picture.Some? then form.value.picture.value else before.picture)
            && after.points == before.points
            && after.parentId == before.parentId
            && after.id == before.id
            && (forall k :: k in db.children && k != childId ==> s.db.children[k] == db.children[k])
            && s.db == db.(children := s.db.children))
  {
  }

  /** remove_child: with the guard passed, a child with no tasks and no
      rewards is deleted and nothing else changes; one that still has any is
      refused by the database and the store is left as it was. */
  lemma RemoveChildEffect(db: Db, actor: Actor, childId: int)
    ensures var s := RemoveChild(db, actor, childId);
      && (s.outcome == Done <==>
            childId in db.children && IsParent(actor, db.children[childId])
            && TasksOf(db, childId) == map[] && RewardsOf(db, childId) == map[])
      && (s.outcome == Fail(IntegrityError) <==>
            childId in db.children && IsParent(actor, db.children[childId])
            && (TasksOf(db, childId) != map[] || RewardsOf(db, childId) != map[]))
      && (s.outcome != Done ==> s.db == db)
      && (s.outcome == Done ==>
            && s.db.children.Keys == db.children.Keys - {childId}
            && (forall k :: k in s.db.children ==> s.db.children[k] == db.children[k])
            && s.db == db.(children := s.db.children))
  {
  }

  /** The children page of a signed-in user lists exactly that user's
      children, each once, in ascending order of name. */
  lemma ChildrenListing(db: Db, userId: int)
    requires Valid(db) && userId in db.users
    ensures Children(db, Member(userId)).Page?
    ensures Children(db, Member(userId)).value.Listed?
    ensures var items := Children(db, Member(userId)).value.items;
      && (forall i :: 0 <= i < |items| ==>
            items[i].id in db.children && db.children[items[i].id] == items[i] && items[i].parentId == userId)
      && (forall k :: k in db.children && db.children[k].parentId == userId ==> db.children[k] in items)
      && (forall i, j :: 0 <= i < j < |items| ==> items[i].id != items[j].id)
      && (forall i, j :: 0 <= i < j < |items| ==> NameLe(items[i].name, items[j].name))
  {
    var ids := set k | k in db.children && db.children[k].parentId == userId;
    var order := SortByName(ids, db.children);
    var items := Children(db, Member(userId)).value.items;
    assert |items| == |order| && forall i :: 0 <= i < |items| ==> items[i] == db.children[order[i]];
    forall k | k in db.children && db.children[k].parentId == userId
      ensures db.children[k] in items
    {
      assert k in ids;
      var i :| 0 <= i < |order| && order[i] == k;
      assert items[i] == db.children[k];
    }
  }

  // ---------------------------------------------------------------- tasks

  /** add_task: a valid submission attaches one new task, under a key not in
      use, to the URL's child, with the submitted points whatever their sign. */
  lemma AddTaskEffect(db: Db, actor: Actor, childId: int, form: Option<TaskForm>)
    requires Valid(db)
    ensures var s := AddTask(db, actor, childId, form);
      && (s.outcome == Done <==> childId in db.children && IsParent(actor, db.children[childId]) && form.Some?)
      && (s.outcome != Done ==> s.db == db)
      && (s.outcome == Done ==>
            var id := db.nextTaskId;
            && id !in db.tasks
            && s.db.tasks.Keys == db.tasks.Keys + {id}
            && s.db.tasks[id].id == id
            && s.db.tasks[id].childId == childId
            && s.db.tasks[id].name == form.value.name
            && s.db.tasks[id].description == Some(form.value.description)
            && (form.value.pointsAwarded.Some? ==> s.db.tasks[id].pointsAwarded == form.value.pointsAwarded.value)
            && (form.value.pointsAwarded.None? ==> s.db.tasks[id].pointsAwarded == 0)
            && (forall k :: k in db.tasks ==> s.db.tasks[k] == db.tasks[k])
            && s.db.children == db.children && s.db.rewards == db.rewards
            && s.db.users == db.users && s.db.posts == db.posts)
  {
  }

  /** The task routes look the task up before the child and the parent:
      a missing task is NotFound even for someone who does not own the child. */
  lemma TaskRoutesGuard(db: Db, actor: Actor, childId: int, taskId: int)
    ensures var outs := [RemoveTask(db, actor, childId, taskId), CheckTask(db, actor, childId, taskId)];
      forall i :: 0 <= i < |outs| ==>
        && (actor.Anonymous? ==> outs[i].outcome == Fail(LoginRequired))
        && (actor.Member? && taskId !in db.tasks ==> outs[i].outcome == Fail(NotFound))
        && (actor.Member? && taskId in db.tasks && childId !in db.children ==> outs[i].outcome == Fail(NotFound))
        && (actor.Member? && taskId in db.tasks && childId in db.children && !IsParent(actor, db.children[childId]) ==>
              outs[i].outcome == Fail(Forbidden))
        && (outs[i].outcome == Done <==>
              taskId in db.tasks && childId in db.children && IsParent(actor, db.children[childId]))
        && (outs[i].outcome != Done ==> outs[i].db == db)
  {
  }

  /** check_task: the URL's child gains exactly the task's award, unclamped,
      and the task is deleted; no check ties the task to that child, so the
      child the task was attached to keeps its balance. */
  lemma CheckTaskEffect(db: Db, actor: Actor, childId: int, taskId: int)
    requires taskId in db.tasks && childId in db.children && IsParent(actor, db.children[childId])
    ensures var s := CheckTask(db, actor, childId, taskId);
      && s.outcome == Done
      && s.db.children.Keys == db.children.Keys
      && s.db.children[childId].points == db.children[childId].points + db.tasks[taskId].pointsAwarded
      && s.db.children[childId] == db.children[childId].(points := s.db.children[childId].points)
      && (forall k :: k in db.children && k != childId ==> s.db.children[k] == db.children[k])
      && s.db.tasks.Keys == db.tasks.Keys - {taskId}
      && (forall k :: k in s.db.tasks ==> s.db.tasks[k] == db.tasks[k])
      && s.db.rewards == db.rewards && s.db.users == db.users && s.db.posts == db.posts
  {
  }

  /** Completion is destructive: once a task has been completed, completing
      or removing it again, by anyone signed in and for any child, is NotFound. */
  lemma CheckTaskOnlyOnce(db: Db, actor: Actor, childId: int, taskId: int, actor': Actor, childId': int)
    requires CheckTask(db, actor, childId, taskId).outcome == Done
    requires actor'.Member?
    ensures var db' := CheckTask(db, actor, childId, taskId).db;
      && CheckTask(db', actor', childId', taskId) == Step(Fail(NotFound), db')
      && RemoveTask(db', actor', childId', taskId) == Step(Fail(NotFound), db')
  {
  }

  /** remove_task: deletes only the named task, and no balance ever moves. */
  lemma RemoveTaskEffect(db: Db, actor: Actor, childId: int, taskId: int)
    ensures var s := RemoveTask(db, actor, childId, taskId);
      && s.db.children == db.children
      && s.db.rewards == db.rewards && s.db.users == db.users && s.db.posts == db.posts
      && (s.outcome == Done ==>
            && s.db.tasks.Keys == db.tasks.Keys - {taskId}
            && (forall k :: k in s.db.tasks ==> s.db.tasks[k] == db.tasks[k]))
  {
  }

  /** Only the URL's child is checked against the signed-in user: a task or
      reward attached to some other child, even another user's, can be
      completed, bought or removed through one's own child. The credit or
      debit then lands on one's own child, and the other child's balance
      does not move. */
  lemma ItemOfAnotherChild(db: Db, actor: Actor, childId: int, taskId: int, rewardId: int)
    requires Valid(db)
    requires childId in db.children && IsParent(actor, db.children[childId])
    requires taskId in db.tasks && db.tasks[taskId].childId != childId
    requires rewardId in db.rewards && db.rewards[rewardId].childId != childId
    ensures var owner := db.tasks[taskId].childId;
      var s := CheckTask(db, actor, childId, taskId);
      && s.outcome == Done && RemoveTask(db, actor, childId, taskId).outcome == Done
      && taskId !in s.db.tasks
      && owner in s.db.children && s.db.children[owner] == db.children[owner]
      && s.db.children[childId].points == db.children[childId].points + db.tasks[taskId].pointsAwarded
    ensures var owner := db.rewards[rewardId].childId;
      var s := BuyReward(db, actor, childId, rewardId);
      && s.outcome == Done && RemoveReward(db, actor, childId, rewardId).outcome == Done
      && rewardId !in s.db.rewards
      && owner in s.db.children && s.db.children[owner] == db.children[owner]
      && s.db.children[childId].points == db.children[childId].points - db.rewards[rewardId].pointsRequired
  {
  }

  // -------------------------------------------------------------- rewards

  /** add_reward: a valid submission attaches one new reward, under a key not
      in use, to the URL's child, with the submitted cost whatever its sign. */
  lemma AddRewardEffect(db: Db, actor: Actor, childId: int, form: Option<RewardForm>)
    requires Valid(db)
    ensures var s := AddReward(db, actor, childId, form);
      && (s.outcome == Done <==> childId in db.children && IsParent(actor, db.children[childId]) && form.Some?)
      && (s.outcome != Done ==> s.db == db)
      && (s.outcome == Done ==>
            var id := db.nextRewardId;
            && id !in db.rewards
            && s.db.rewards.Keys == db.rewards.Keys + {id}
            && s.db.rewards[id].id == id
            && s.db.rewards[id].childId == childId
            && s.db.rewards[id].name == form.value.name
            && s.db.rewards[id].description == Some(form.value.description)
            && (form.value.pointsRequired.Some? ==> s.db.rewards[id].pointsRequired == form.value.pointsRequired.value)
            && (form.value.pointsRequired.None? ==> s.db.rewards[id].pointsRequired == 0)
            && (forall k :: k in db.rewards ==> s.db.rewards[k] == db.rewards[k])
            && s.db.children == db.children && s.db.tasks == db.tasks
            && s.db.users == db.users && s.db.posts == db.posts)
  {
  }

  /** The reward routes look the reward up before the child and the parent. */
  lemma RewardRoutesGuard(db: Db, actor: Actor, childId: int, rewardId: int)
    ensures var outs := [RemoveReward(db, actor, childId, rewardId), BuyReward(db, actor, childId, rewardId)];
      forall i :: 0 <= i < |outs| ==>
        && (actor.Anonymous? ==> outs[i].outcome == Fail(LoginRequired))
        && (actor.Member? && rewardId !in db.rewards ==> outs[i].outcome == Fail(NotFound))
        && (actor.Member? && rewardId in db.rewards && childId !in db.children ==> outs[i].outcome == Fail(NotFound))
        && (actor.Member? && rewardId in db.rewards && childId in db.children && !IsParent(actor, db.children[childId]) ==>
              outs[i].outcome == Fail(Forbidden))
        && (outs[i].outcome == Done <==>
              rewardId in db.rewards && childId in db.children && IsParent(actor, db.children[childId]))
        && (outs[i].outcome != Done ==> outs[i].db == db)
  {
  }

  /** buy_reward: the URL's child loses exactly the reward's cost and the
      reward is deleted; the purchase goes through whatever the balance. */
  lemma BuyRewardEffect(db: Db, actor: Actor, childId: int, rewardId: int)
    requires rewardId in db.rewards && childId in db.children && IsParent(actor, db.children[childId])
    ensures var s := BuyReward(db, actor, childId, rewardId);
      && s.outcome == Done
      && s.db.children.Keys == db.children.Keys
      && s.db.children[childId].points == db.children[childId].points - db.rewards[rewardId].pointsRequired
      && s.db.children[childId] == db.children[childId].(points := s.db.children[childId].points)
      && (forall k :: k in db.children && k != childId ==> s.db.children[k] == db.children[k])
      && s.db.rewards.Keys == db.rewards.Keys - {rewardId}
      && (forall k :: k in s.db.rewards ==> s.db.rewards[k] == db.rewards[k])
      && s.db.tasks == db.tasks && s.db.users == db.users && s.db.posts == db.posts
      && (db.children[childId].points < db.rewards[rewardId].pointsRequired ==> s.db.children[childId].points < 0)
  {
  }

  /** A purchase is also destructive: the same reward cannot be bought twice. */
  lemma BuyRewardOnlyOnce(db: Db, actor: Actor, childId: int, rewardId: int, actor': Actor, childId': int)
    requires BuyReward(db, actor, childId, rewardId).outcome == Done
    requires actor'.Member?
    ensures var db' := BuyReward(db, actor, childId, rewardId).db;
      && BuyReward(db', actor', childId', rewardId) == Step(Fail(NotFound), db')
      && RemoveReward(db', actor', childId', rewardId) == Step(Fail(NotFound), db')
  {
  }

  /** remove_reward: deletes only the named reward, and no balance ever moves. */
  lemma RemoveRewardEffect(db: Db, actor: Actor, childId: int, rewardId: int)
    ensures var s := RemoveReward(db, actor, childId, rewardId);
      && s.db.children == db.children
      && s.db.tasks == db.tasks && s.db.users == db.users && s.db.posts == db.posts
      && (s.outcome == Done ==>
            && s.db.rewards.Keys == db.rewards.Keys - {rewardId}
            && (forall k :: k in s.db.rewards ==> s.db.rewards[k] == db.rewards[k]))
  {
  }
}
