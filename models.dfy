/** The records of the chore-and-reward application: one datatype per table,
    the column defaults a new row gets, and the column widths the schema
    declares. */
module Models {

  datatype Option<+T> = None | Some(value: T)

  // Declared widths of the ledger's String(n) columns.
  const NameWidth: nat := 50
  const PictureWidth: nat := 50
  const DescriptionWidth: nat := 255

  /** Default of `User.image_file` and `Child.picture`. */
  const DefaultPicture: string := "default.jpg"

  /** Default of `Child.points`, `Task.points_awarded` and `Reward.points_required`. */
  const DefaultPoints: int := 0

  /** A registered parent account. `password` is the stored hash, opaque here. */
  datatype User = User(id: int, username: string, email: string, imageFile: string, password: string)

  /** A blog post; `datePosted` is an opaque timestamp, `userId` its author. */
  datatype Post = Post(id: int, title: string, datePosted: int, content: string, userId: int)

  /** A child profile with its running points balance; `parentId` is the owning user. */
  datatype Child = Child(id: int, name: string, picture: string, parentId: int, points: int)

  /** A chore worth `pointsAwarded` (any sign) to the child it is attached to. */
  datatype Task = Task(id: int, name: string, childId: int, description: Option<string>, pointsAwarded: int)

  /** A reward costing `pointsRequired` (any sign). */
  datatype Reward = Reward(id: int, name: string, childId: int, description: Option<string>, pointsRequired: int)

  predicate ChildFits(c: Child) {
    |c.name| <= NameWidth && |c.picture| <= PictureWidth
  }

  /** An optional description fits when absent (the column is nullable) or at most 255 long. */
  predicate DescriptionFits(d: Option<string>) {
    d.None? || |d.value| <= DescriptionWidth
  }

  predicate TaskFits(t: Task) {
    |t.name| <= NameWidth && DescriptionFits(t.description)
  }

  predicate RewardFits(r: Reward) {
    |r.name| <= NameWidth && DescriptionFits(r.description)
  }

  /** A child row as `Child(name=..., parent_id=...)` creates it: the picture
      and points columns take their defaults. */
  function NewChild(id: int, name: string, parentId: int): (c: Child)
    ensures c.id == id && c.name == name && c.parentId == parentId
    ensures c.points == 0 && c.picture == DefaultPicture
    ensures ChildFits(c) <==> |name| <= NameWidth
  {
    Child(id, name, DefaultPicture, parentId, DefaultPoints)
  }

  /** A task row as `Task(..., points_awarded=...)` creates it. An award of
      `None` is left out of the INSERT, so the column default 0 applies;
      nothing constrains the sign of a given award. */
  function NewTask(id: int, name: string, childId: int, description: Option<string>, pointsAwarded: Option<int>): (t: Task)
    ensures t.id == id && t.name == name && t.childId == childId && t.description == description
    ensures pointsAwarded.Some? ==> t.pointsAwarded == pointsAwarded.value
    ensures pointsAwarded.None? ==> t.pointsAwarded == 0
    ensures TaskFits(t) <==> |name| <= NameWidth && DescriptionFits(description)
  {
    Task(id, name, childId, description, if pointsAwarded.Some? then pointsAwarded.value else DefaultPoints)
  }

  /** A reward row; a cost of `None` takes the column default 0. */
  function NewReward(id: int, name: string, childId: int, description: Option<string>, pointsRequired: Option<int>): (r: Reward)
    ensures r.id == id && r.name == name && r.childId == childId && r.description == description
    ensures pointsRequired.Some? ==> r.pointsRequired == pointsRequired.value
    ensures pointsRequired.None? ==> r.pointsRequired == 0
    ensures RewardFits(r) <==> |name| <= NameWidth && DescriptionFits(description)
  {
    Reward(id, name, childId, description, if pointsRequired.Some? then pointsRequired.value else DefaultPoints)
  }
}
