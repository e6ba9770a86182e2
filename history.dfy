/** Sequences of requests: every state-changing route as one command, the
    store invariant kept by each, and the balance of a child as the running
    total of what was credited to and debited from it. */
module History {
  import opened Models
  import opened Database
  import Handlers

  datatype Command =
    | UpdatePost(postId: int, postForm: Option<Handlers.PostForm>)
    | DeletePost(postId: int)
    | AddChild(childForm: Option<Handlers.ChildForm>)
    | UpdateChild(childId: int, childForm: Option<Handlers.ChildForm>)
    | RemoveChild(childId: int)
    | AddTask(childId: int, taskForm: Option<Handlers.TaskForm>)
    | RemoveTask(childId: int, taskId: int)
    | CheckTask(childId: int, taskId: int)
    | AddReward(childId: int, rewardForm: Option<Handlers.RewardForm>)
    | RemoveReward(childId: int, rewardId: int)
    | BuyReward(childId: int, rewardId: int)

  /** One request by `actor`. */
  datatype Request = Request(actor: Handlers.Actor, command: Command)

  function Apply(db: Db, r: Request): Handlers.Step {
    var a := r.actor;
    match r.command
    case UpdatePost(p, f) => Handlers.UpdatePost(db, a, p, f)
    case DeletePost(p) => Handlers.DeletePost(db, a, p)
    case AddChild(f) => Handlers.AddChild(db, a, f)
    case UpdateChild(c, f) => Handlers.UpdateChild(db, a, c, f)
    case RemoveChild(c) => Handlers.RemoveChild(db, a, c)
    case AddTask(c, f) => Handlers.AddTask(db, a, c, f)
    case RemoveTask(c, t) => Handlers.RemoveTask(db, a, c, t)
    case CheckTask(c, t) => Handlers.CheckTask(db, a, c, t)
    case AddReward(c, f) => Handlers.AddReward(db, a, c, f)
    case RemoveReward(c, w) => Handlers.RemoveReward(db, a, c, w)
    case BuyReward(c, w) => Handlers.BuyReward(db, a, c, w)
  }

  /** A request that is not `Done` leaves the store exactly as it was, and no
      request touches the accounts. */
  lemma ApplyAtomic(db: Db, r: Request)
    ensures Apply(db, r).outcome != Handlers.Done ==> Apply(db, r).db == db
    ensures Apply(db, r).db.users == db.users
  {
  }

  /** Every route keeps the keys, the unique accounts, the foreign keys and
      the fresh-key counters. */
  lemma ApplyKeepsValid(db: Db, r: Request)
    requires Valid(db) && Handlers.SignedInAs(db, r.actor)
    ensures Valid(Apply(db, r).db)
  {
    var a := r.actor;
    match r.command
    case UpdatePost(p, f) => UpdatePostKeepsValid(db, a, p, f);
    case DeletePost(p) => DeletePostKeepsValid(db, a, p);
    case AddChild(f) => AddChildKeepsValid(db, a, f);
    case UpdateChild(c, f) => UpdateChildKeepsValid(db, a, c, f);
    case RemoveChild(c) => RemoveChildKeepsValid(db, a, c);
    case AddTask(c, f) => AddTaskKeepsValid(db, a, c, f);
    case RemoveTask(c, t) => RemoveTaskKeepsValid(db, a, c, t);
    case CheckTask(c, t) => CheckTaskKeepsValid(db, a, c, t);
    case AddReward(c, f) => AddRewardKeepsValid(db, a, c, f);
    case RemoveReward(c, w) => RemoveRewardKeepsValid(db, a, c, w);
    case BuyReward(c, w) => BuyRewardKeepsValid(db, a, c, w);
  }

  lemma UpdatePostKeepsValid(db: Db, a: Handlers.Actor, p: int, f: Option<Handlers.PostForm>)
    requires Valid(db)
    ensures Valid(Handlers.UpdatePost(db, a, p, f).db)
  {
  }

  lemma DeletePostKeepsValid(db: Db, a: Handlers.Actor, p: int)
    requires Valid(db)
    ensures Valid(Handlers.DeletePost(db, a, p).db)
  {
  }

  /** The new child's parent is the signed-in user, a stored account. */
  lemma AddChildKeepsValid(db: Db, a: Handlers.Actor, f: Option<Handlers.ChildForm>)
    requires Valid(db) && Handlers.SignedInAs(db, a)
    ensures Valid(Handlers.AddChild(db, a, f).db)
  {
  }

  lemma UpdateChildKeepsValid(db: Db, a: Handlers.Actor, c: int, f: Option<Handlers.ChildForm>)
    requires Valid(db)
    ensures Valid(Handlers.UpdateChild(db, a, c, f).db)
  {
  }

  /** A child is only deleted when no task or reward refers to it. */
  lemma RemoveChildKeepsValid(db: Db, a: Handlers.Actor, c: int)
    requires Valid(db)
    ensures Valid(Handlers.RemoveChild(db, a, c).db)
  {
    var s := Handlers.RemoveChild(db, a, c);
    if s.outcome == Handlers.Done {
      forall k | k in s.db.tasks ensures s.db.tasks[k].childId in s.db.children {
        assert k !in TasksOf(db, c);
      }
      forall k | k in s.db.rewards ensures s.db.rewards[k].childId in s.db.children {
        assert k !in RewardsOf(db, c);
      }
    }
  }

  lemma AddTaskKeepsValid(db: Db, a: Handlers.Actor, c: int, f: Option<Handlers.TaskForm>)
    requires Valid(db)
    ensures Valid(Handlers.AddTask(db, a, c, f).db)
  {
  }

  lemma RemoveTaskKeepsValid(db: Db, a: Handlers.Actor, c: int, t: int)
    requires Valid(db)
    ensures Valid(Handlers.RemoveTask(db, a, c, t).db)
  {
  }

  lemma CheckTaskKeepsValid(db: Db, a: Handlers.Actor, c: int, t: int)
    requires Valid(db)
    ensures Valid(Handlers.CheckTask(db, a, c, t).db)
  {
  }

  lemma AddRewardKeepsValid(db: Db, a: Handlers.Actor, c: int, f: Option<Handlers.RewardForm>)
    requires Valid(db)
    ensures Valid(Handlers.AddReward(db, a, c, f).db)
  {
  }

  lemma RemoveRewardKeepsValid(db: Db, a: Handlers.Actor, c: int, w: int)
    requires Valid(db)
    ensures Valid(Handlers.RemoveReward(db, a, c, w).db)
  {
  }

  lemma BuyRewardKeepsValid(db: Db, a: Handlers.Actor, c: int, w: int)
    requires Valid(db)
    ensures Valid(Handlers.BuyReward(db, a, c, w).db)
  {
  }

  function Run(db: Db, rs: seq<Request>): Db
    decreases |rs|
  {
    if rs == [] then db else Run(Apply(db, rs[0]).db, rs[1..])
  }

  /** Every request comes from a visitor the login manager could load. */
  predicate AllSignedIn(users: map<int, User>, rs: seq<Request>) {
    forall i :: 0 <= i < |rs| ==> (rs[i].actor.Member? ==> rs[i].actor.id in users)
  }

  lemma {:induction false} RunKeepsValid(db: Db, rs: seq<Request>)
    requires Valid(db) && AllSignedIn(db.users, rs)
    ensures Valid(Run(db, rs)) && Run(db, rs).users == db.users
    decreases |rs|
  {
    if rs != [] {
      ApplyKeepsValid(db, rs[0]);
      ApplyAtomic(db, rs[0]);
      RunKeepsValid(Apply(db, rs[0]).db, rs[1..]);
    }
  }

  /** What one request books on child `childId`, read off the request and the
      state before it: a completion credits the task's award and a purchase
      debits the reward's cost when the ids resolve and the visitor is the
      URL child's parent; nothing else moves a balance. */
  function Booked(db: Db, r: Request, childId: int): int {
    match r.command
    case CheckTask(c, t) =>
      if c == childId && t in db.tasks && c in db.children && Handlers.IsParent(r.actor, db.children[c])
      then db.tasks[t].pointsAwarded else 0
    case BuyReward(c, w) =>
      if c == childId && w in db.rewards && c in db.children && Handlers.IsParent(r.actor, db.children[c])
      then -db.rewards[w].pointsRequired else 0
    case _ => 0
  }

  /** The sum of what the requests book on `childId`, each one against the
      state it is applied to. */
  function TotalBooked(db: Db, rs: seq<Request>, childId: int): int
    decreases |rs|
  {
    if rs == [] then 0 else Booked(db, rs[0], childId) + TotalBooked(Apply(db, rs[0]).db, rs[1..], childId)
  }

  /** `childId` exists in every state of the run. */
  predicate Survives(db: Db, rs: seq<Request>, childId: int)
    decreases |rs|
  {
    childId in db.children && (rs == [] || Survives(Apply(db, rs[0]).db, rs[1..], childId))
  }

  /** One request changes an existing child's balance by exactly what it books. */
  lemma ApplyBooks(db: Db, r: Request, childId: int)
    requires Valid(db)
    requires childId in db.children && childId in Apply(db, r).db.children
    ensures Apply(db, r).db.children[childId].points == db.children[childId].points + Booked(db, r, childId)
  {
  }

  /** The balance invariant: a child's points after any run of requests are
      its points before plus every award credited to it minus every cost
      debited from it, as long as the child exists throughout. */
  lemma {:induction false} BalanceIsLedger(db: Db, rs: seq<Request>, childId: int)
    requires Valid(db) && AllSignedIn(db.users, rs) && Survives(db, rs, childId)
    ensures childId in Run(db, rs).children
    ensures Run(db, rs).children[childId].points == db.children[childId].points + TotalBooked(db, rs, childId)
    decreases |rs|
  {
    if rs != [] {
      var db' := Apply(db, rs[0]).db;
      ApplyKeepsValid(db, rs[0]);
      ApplyAtomic(db, rs[0]);
      ApplyBooks(db, rs[0], childId);
      assert AllSignedIn(db'.users, rs[1..]) by {
        forall i | 0 <= i < |rs[1..]| ensures (rs[1..][i].actor.Member? ==> rs[1..][i].actor.id in db'.users) {
          assert rs[1..][i] == rs[i + 1];
        }
      }
      BalanceIsLedger(db', rs[1..], childId);
    }
  }

  /** A child added during a run starts the ledger at 0: right after
      add_child, its balance is what the later requests book on it. */
  lemma {:induction false} NewChildBalance(db: Db, actor: Handlers.Actor, form: Option<Handlers.ChildForm>, rs: seq<Request>)
    requires Valid(db) && actor.Member? && actor.id in db.users && form.Some?
    requires var db1 := Handlers.AddChild(db, actor, form).db;
      AllSignedIn(db1.users, rs) && Survives(db1, rs, db.nextChildId)
    ensures db.nextChildId in Run(Handlers.AddChild(db, actor, form).db, rs).children
    ensures Run(Handlers.AddChild(db, actor, form).db, rs).children[db.nextChildId].points
         == TotalBooked(Handlers.AddChild(db, actor, form).db, rs, db.nextChildId)
  {
    var db1 := Handlers.AddChild(db, actor, form).db;
    ApplyKeepsValid(db, Request(actor, AddChild(form)));
    BalanceIsLedger(db1, rs, db.nextChildId);
  }
}
