/** A parent's session against the store, step by step. */
module Scenarios {
  import opened Models
  import opened Handlers
  import opened Routes
  import Guarantees

  /** The child's parent adds a chore worth `award` and marks it done; marking
      it done a second time is NotFound. */
  method Earn(store: Ledger, childId: int, award: int) returns (again: Outcome)
    requires store.Valid() && childId in store.children
    modifies store
    ensures store.Valid() && store.users == old(store.users)
    ensures childId in store.children
    ensures store.children[childId] == old(store.children[childId]).(points := old(store.children[childId].points) + award)
    ensures again == Fail(NotFound)
  {
    var parent := Member(store.children[childId].parentId);
    var form := Some(TaskForm("Dishes", "", Some(award)));
    var s := store.Snapshot();
    var r := store.AddTask(parent, childId, form);
    Guarantees.AddTaskEffect(s, parent, childId, form);
    var taskId := s.nextTaskId;

    s := store.Snapshot();
    r := store.CheckTask(parent, childId, taskId);
    Guarantees.CheckTaskEffect(s, parent, childId, taskId);

    s := store.Snapshot();
    again := store.CheckTask(parent, childId, taskId);
    Guarantees.TaskRoutesGuard(s, parent, childId, taskId);
  }

  /** The child's parent adds a reward costing `cost`; another user's attempt
      to buy it is Forbidden, the parent's goes through whatever the balance. */
  method Spend(store: Ledger, childId: int, cost: int, other: int) returns (otherOutcome: Outcome)
    requires store.Valid() && childId in store.children && other != store.children[childId].parentId
    modifies store
    ensures store.Valid() && store.users == old(store.users)
    ensures childId in store.children
    ensures store.children[childId] == old(store.children[childId]).(points := old(store.children[childId].points) - cost)
    ensures otherOutcome == Fail(Forbidden)
  {
    var parent := Member(store.children[childId].parentId);
    var form := Some(RewardForm("Toy", "", Some(cost)));
    var s := store.Snapshot();
    var r := store.AddReward(parent, childId, form);
    Guarantees.AddRewardEffect(s, parent, childId, form);
    var rewardId := s.nextRewardId;

    s := store.Snapshot();
    otherOutcome := store.BuyReward(Member(other), childId, rewardId);
    Guarantees.RewardRoutesGuard(s, Member(other), childId, rewardId);

    s := store.Snapshot();
    r := store.BuyReward(parent, childId, rewardId);
    Guarantees.BuyRewardEffect(s, parent, childId, rewardId);
  }

  /** A new child earns 10 points for a chore and buys a 15-point reward: the
      purchase goes through and leaves -5. */
  method EarnThenOverdraw() returns (balance: int, again: Outcome, stranger: Outcome)
    ensures balance == -5
    ensures again == Fail(NotFound)
    ensures stranger == Fail(Forbidden)
  {
    var ana := User(1, "ana", "ana@example.com", DefaultPicture, "hash-a");
    var ben := User(2, "ben", "ben@example.com", DefaultPicture, "hash-b");
    var store := new Ledger(map[1 := ana, 2 := ben], map[]);
    var s := store.Snapshot();
    var form := Some(ChildForm("Mia", None));
    var r := store.AddChild(Member(1), form);
    Guarantees.AddChildEffect(s, Member(1), form);
    assert store.children[1].points == 0 && store.children[1].parentId == 1;

    again := Earn(store, 1, 10);
    stranger := Spend(store, 1, 15, 2);
    balance := store.children[1].points;
  }
}
