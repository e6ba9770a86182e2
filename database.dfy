/** The database as one value: a table per model, each a map from primary key
    to row, plus the next primary key the store hands out for each table the
    handlers insert into. */
module Database {
  import opened Models

  datatype Db = Db(
    users: map<int, User>,
    posts: map<int, Post>,
    children: map<int, Child>,
    tasks: map<int, Task>,
    rewards: map<int, Reward>,
    nextChildId: int,
    nextTaskId: int,
    nextRewardId: int)

  /** Every row is stored under its own primary key. */
  predicate Keyed(db: Db) {
    && (forall k :: k in db.users ==> db.users[k].id == k)
    && (forall k :: k in db.posts ==> db.posts[k].id == k)
    && (forall k :: k in db.children ==> db.children[k].id == k)
    && (forall k :: k in db.tasks ==> db.tasks[k].id == k)
    && (forall k :: k in db.rewards ==> db.rewards[k].id == k)
  }

  /** `username` and `email` are unique columns. */
  predicate UniqueAccounts(users: map<int, User>) {
    forall a, b :: a in users && b in users && a != b ==>
      users[a].username != users[b].username && users[a].email != users[b].email
  }

  /** The non-null foreign keys: a post's author, a child's parent, and the
      child of every task and reward all exist. */
  predicate ForeignKeys(db: Db) {
    && (forall k :: k in db.posts ==> db.posts[k].userId in db.users)
    && (forall k :: k in db.children ==> db.children[k].parentId in db.users)
    && (forall k :: k in db.tasks ==> db.tasks[k].childId in db.children)
    && (forall k :: k in db.rewards ==> db.rewards[k].childId in db.children)
  }

  /** The next key of each table is above every key in use, so an insert never
      overwrites a row. */
  predicate FreshIds(db: Db) {
    && (forall k :: k in db.children ==> k < db.nextChildId)
    && (forall k :: k in db.tasks ==> k < db.nextTaskId)
    && (forall k :: k in db.rewards ==> k < db.nextRewardId)
  }

  predicate Valid(db: Db) {
    Keyed(db) && UniqueAccounts(db.users) && ForeignKeys(db) && FreshIds(db)
  }

  /** The rows of `Task.query.filter_by(child_id=childId)`. */
  function TasksOf(db: Db, childId: int): (m: map<int, Task>)
    ensures forall k :: k in m <==> k in db.tasks && db.tasks[k].childId == childId
    ensures forall k :: k in m ==> m[k] == db.tasks[k]
  {
    map k | k in db.tasks && db.tasks[k].childId == childId :: db.tasks[k]
  }

  /** The rows of `Reward.query.filter_by(child_id=childId)`. */
  function RewardsOf(db: Db, childId: int): (m: map<int, Reward>)
    ensures forall k :: k in m <==> k in db.rewards && db.rewards[k].childId == childId
    ensures forall k :: k in m ==> m[k] == db.rewards[k]
  {
    map k | k in db.rewards && db.rewards[k].childId == childId :: db.rewards[k]
  }

  /** An empty store holding only pre-existing accounts and posts is valid
      exactly when those satisfy the keys, the unique columns and the posts'
      foreign key. */
  lemma InitialValid(users: map<int, User>, posts: map<int, Post>)
    ensures Valid(Db(users, posts, map[], map[], map[], 1, 1, 1)) <==>
      && (forall k :: k in users ==> users[k].id == k)
      && (forall k :: k in posts ==> posts[k].id == k)
      && UniqueAccounts(users)
      && (forall k :: k in posts ==> posts[k].userId in users)
  {
  }
}
