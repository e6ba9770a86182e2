# Points ledger of the PlayWin chore tracker

PlayWin is a Flask application in which parents (users) keep child profiles.
Each child has an integer `points` balance, tasks that award points when
completed, and rewards that cost points when bought. This project models the
route handlers that change that state, together with the records and
constraints they work on:

- adding, viewing, updating, removing and listing children;
- adding, removing and completing tasks;
- adding, removing and buying rewards;
- the author check on editing and deleting blog posts.

Every handler follows the same order. A `login_required` route first sends an
anonymous visitor to the login page. The handler then looks up each id it
needs, answering 404 for a missing one. Next it checks that the signed-in user
is the child's parent (or the post's author), answering 403 otherwise. Only
after that does it change the store.

## Layout

- `models.dfy` (`Models`): the `User`, `Post`, `Child`, `Task` and `Reward`
  records. It also holds the column widths, the `default.jpg` picture, and
  the constructors for new rows with their defaults (`points = 0`).
- `database.dfy` (`Database`): the whole store as one value `Db`, with a map
  per table and a next-key counter per inserted table. `Valid` says:
  - every row is stored under its own key;
  - `username` and `email` are unique;
  - the non-null foreign keys resolve (post→user, child→user, task→child,
    reward→child);
  - every counter is above the keys in use.
- `name_order.dfy` (`NameOrder`): the order that `ORDER BY name ASC` uses.
  Under the SQLite assumption below, this is the default binary collation,
  i.e. code-point lexicographic order. The module also holds a sort by that
  order for the children page.
- `handlers.dfy` (`Handlers`): each route as a function from the state before
  the request to an `Outcome` and the state after it. Handlers that only read
  return a `Response`.
- `guarantees.dfy` (`Guarantees`): what each route promises, one lemma per
  route: the guard order, the exact effect, and what stays unchanged.
- `history.dfy` (`History`): runs of requests, the proofs that every route
  keeps `Valid`, and the balance invariant. The invariant says a child's
  points are its starting points plus every award credited minus every cost
  debited.
- `routes.dfy` (`Routes.Ledger`): the handlers as methods of a class whose
  fields are the tables. They update those fields in place. Each method is
  proved to produce exactly the outcome and new state of its `Handlers`
  function, and to keep `Valid`.
- `scenarios.dfy` (`Scenarios`): a session through the class. A child earns
  10 points and buys a 15-point reward, ending at −5.

Modelling choices:

- The database engine is configured outside the modelled files: `routes.py`,
  `models.py` and `forms.py` set none up. The model assumes the application's
  SQLite configuration. Three choices rest on that assumption: the name order,
  column widths left out of the store invariant, and keys that are never
  reused (see "## Left out").
- The visitor is an explicit parameter `Actor = Anonymous | Member(id)`.
  `SignedInAs` states what the login manager guarantees: a signed-in visitor
  is a stored user (`load_user`, models.py:7-9).
- `child.parent != current_user` is modelled as `parentId != id`, and
  `post.author != current_user` as `userId != id`. `User` inherits
  flask_login's `UserMixin` (models.py:10), whose equality compares
  `get_id()`, the user's id as a string. Two users are therefore unequal
  exactly when their ids differ.
- A form is `Option<...>`. `None` covers a GET and a failed validation. The
  handler then renders the form (`FormShown`) and stores nothing, after the
  guards have run. `Some` carries already-validated data. For `update_child`,
  the picture is the file name that the upload helper returned, if any.
- The points fields of the task and reward forms (forms.py:88, forms.py:94)
  are `IntegerField`s without `DataRequired`. A submission that leaves one
  out still validates, with no value. The ORM then leaves the column out of
  the INSERT, so the column default 0 (models.py:67, models.py:78) applies.
  The forms therefore carry `Option<int>`, and `NewTask`/`NewReward` store 0
  for `None`.

Consequences of the code that the lemmas make explicit:

- Completing a task adds exactly `points_awarded`, with no clamping. Buying a
  reward subtracts exactly `points_required`, and no balance check exists, so
  10 − 15 = −5 goes through. Both deletions are destructive, so doing either
  twice gives NotFound (`CheckTaskOnlyOnce`, `BuyRewardOnlyOnce`).
- The task and reward routes check only the child in the URL. They never
  compare `task.child_id` or `reward.child_id` with it. A parent can
  therefore complete, buy or remove an item attached to any other child,
  including another user's child. The credit or debit then goes to the URL
  child (`ItemOfAnotherChild`).

Consequences of the schema and the lookup order:

- **Removing a child does not cascade.** The relationships (models.py:55-56)
  declare no delete cascade, so on delete the ORM sets the dependents'
  `child_id` to NULL. The NOT NULL columns (models.py:65, models.py:76)
  reject that at commit. So `remove_child` fails for a child that still has
  tasks or rewards: the model answers `Fail(IntegrityError)` and leaves the
  store unchanged. It succeeds only for a child with neither.
- **A missing task or reward is NotFound for every signed-in visitor, owner
  or not.** routes.py:292, 305, 336 and 349 look the item up before the
  child (`TaskRoutesGuard`, `RewardRoutesGuard`).

## Model

Each route is modelled as a function of `Handlers` (`Handlers.UpdatePost`
through `Handlers.BuyReward`, and `Handlers.Children`). The rows below name
the `Guarantees` lemma that specifies each of these functions, and the
`Routes.Ledger` method that performs it in place.

| member | source | states |
|---|---|---|
| `Models.NewChild` | playwin/models.py:49-54 | a new child has the given name and parent, `points = 0` and picture `default.jpg`; it fits its columns iff the name is at most 50 characters |
| `Models.NewTask` | playwin/models.py:62-67 | a new task carries the given child and description, and the given award of any sign, or the column default 0 when no award was submitted; it fits its columns iff the name is at most 50 characters and the description is absent or at most 255 |
| `Models.NewReward` | playwin/models.py:73-78 | the same for a reward and its cost, with default 0 |
| `Database.TasksOf` | playwin/routes.py:221 | holds exactly the tasks whose `child_id` is the given child |
| `Database.RewardsOf` | playwin/routes.py:222 | holds exactly the rewards whose `child_id` is the given child |
| `Database.InitialValid` | playwin/models.py:12-43 | an empty ledger over existing accounts and posts is valid iff the rows are keyed by id, username and email are unique, and every post's author exists |
| `NameOrder.NameLeReflexive` | playwin/routes.py:265 | the name order is reflexive |
| `NameOrder.NameLeTotal` | playwin/routes.py:265 | any two names are ordered one way or the other |
| `NameOrder.NameLeTransitive` | playwin/routes.py:265 | the name order is transitive |
| `NameOrder.NameLeAntisymmetric` | playwin/routes.py:265 | names ordered both ways are equal |
| `NameOrder.FirstExists` | playwin/routes.py:265 | every non-empty set of children has one whose name comes first |
| `NameOrder.SortByName` | playwin/routes.py:265 | lists each given key exactly once, in ascending order of name |
| `Handlers.ChildGuard` | playwin/routes.py:229-231 | NotFound iff the child is missing; Forbidden iff it exists and the visitor is not its parent; passes iff the visitor is its parent |
| `Handlers.ItemGuard` | playwin/routes.py:305-308 | LoginRequired iff anonymous; otherwise NotFound iff the item or the child is missing; Forbidden iff both exist and the visitor is not the child's parent |
| `Handlers.PostGuard` | playwin/routes.py:119-121 | LoginRequired iff anonymous; NotFound iff the post is missing; Forbidden iff the visitor is not its author |
| `Guarantees.UpdatePostEffect` | playwin/routes.py:116-132 | guard order; only the author's valid submission changes anything, and then only that post's title and content |
| `Guarantees.DeletePostEffect` | playwin/routes.py:135-144 | guard order; success removes exactly that post and nothing else |
| `Guarantees.AddChildEffect` | playwin/routes.py:202-212 | a signed-in user's submission adds one child under an unused key, owned by that user, with 0 points and the default picture; nothing else changes |
| `Guarantees.ViewChildEffect` | playwin/routes.py:215-223 | NotFound iff the child is missing; Forbidden iff the visitor (even an anonymous one) is not its parent; otherwise the page shows exactly the child's tasks and rewards |
| `Guarantees.ChildRoutesGuard` | playwin/routes.py:226-330 | update_child, remove_child, add_task and add_reward answer LoginRequired, then NotFound for a missing child, then Forbidden for a non-parent, and a refused request changes nothing |
| `Guarantees.UpdateChildEffect` | playwin/routes.py:226-245 | success replaces the name, and the picture only when one was uploaded; points, parent and the other rows are unchanged |
| `Guarantees.RemoveChildEffect` | playwin/routes.py:248-257 | the parent deletes exactly that child if it has no tasks or rewards; otherwise the result is IntegrityError and the store is unchanged |
| `Guarantees.ChildrenListing` | playwin/routes.py:260-269 | a signed-in user's page lists exactly that user's children, each once, sorted by name |
| `Guarantees.AddTaskEffect` | playwin/routes.py:272-286 | a valid submission adds one task under an unused key, attached to the URL child, with the submitted points, or 0 when the field was left out; nothing else changes |
| `Guarantees.TaskRoutesGuard` | playwin/routes.py:289-313 | remove_task and check_task: LoginRequired, then a missing task is NotFound, then a missing child is NotFound, then a non-parent is Forbidden; they succeed iff all checks pass, and a failure changes nothing |
| `Guarantees.CheckTaskEffect` | playwin/routes.py:309-311 | the URL child's points rise by exactly `points_awarded` and the task is deleted; all other children, tasks and rewards are unchanged |
| `Guarantees.CheckTaskOnlyOnce` | playwin/routes.py:305-310 | after a completion, completing or removing the same task id again, by any signed-in user and for any child, is NotFound |
| `Guarantees.RemoveTaskEffect` | playwin/routes.py:289-299 | whatever the outcome, no child's points change; success deletes only the named task |
| `Guarantees.ItemOfAnotherChild` | playwin/routes.py:292-354 | an item attached to another child can be completed, bought or removed through the URL child; the URL child is credited or debited and the item's own child is untouched |
| `Guarantees.AddRewardEffect` | playwin/routes.py:316-330 | a valid submission adds one reward under an unused key, attached to the URL child, with the submitted cost, or 0 when the field was left out; nothing else changes |
| `Guarantees.RewardRoutesGuard` | playwin/routes.py:333-357 | remove_reward and buy_reward use the same order: LoginRequired, reward NotFound, child NotFound, Forbidden |
| `Guarantees.BuyRewardEffect` | playwin/routes.py:349-355 | the purchase goes through whatever the balance: points fall by exactly `points_required` (so they go negative when the balance is lower) and the reward is deleted; nothing else changes |
| `Guarantees.BuyRewardOnlyOnce` | playwin/routes.py:349-354 | after a purchase, buying or removing the same reward id again is NotFound |
| `Guarantees.RemoveRewardEffect` | playwin/routes.py:333-343 | whatever the outcome, no child's points change; success deletes only the named reward |
| `History.ApplyAtomic` | playwin/routes.py:116-357 | a request that does not succeed leaves the store as it was; no request changes the accounts |
| `History.ApplyKeepsValid` | playwin/models.py:12-78 | every route keeps the key, uniqueness, foreign-key and fresh-key invariant |
| `History.UpdatePostKeepsValid` | playwin/routes.py:116-132 | update_post keeps the invariant |
| `History.DeletePostKeepsValid` | playwin/routes.py:135-144 | delete_post keeps the invariant |
| `History.AddChildKeepsValid` | playwin/routes.py:207-209 | add_child keeps the invariant: the new child's parent is a stored user |
| `History.UpdateChildKeepsValid` | playwin/routes.py:226-245 | update_child keeps the invariant |
| `History.RemoveChildKeepsValid` | playwin/routes.py:248-257 | remove_child keeps the invariant, so no task or reward is left pointing at a deleted child |
| `History.AddTaskKeepsValid` | playwin/routes.py:272-286 | add_task keeps the invariant |
| `History.RemoveTaskKeepsValid` | playwin/routes.py:289-299 | remove_task keeps the invariant |
| `History.CheckTaskKeepsValid` | playwin/routes.py:302-313 | check_task keeps the invariant |
| `History.AddRewardKeepsValid` | playwin/routes.py:316-330 | add_reward keeps the invariant |
| `History.RemoveRewardKeepsValid` | playwin/routes.py:333-343 | remove_reward keeps the invariant |
| `History.BuyRewardKeepsValid` | playwin/routes.py:346-357 | buy_reward keeps the invariant |
| `History.RunKeepsValid` | playwin/models.py:12-78 | any run of requests by signed-in users keeps the invariant and leaves the accounts unchanged |
| `History.ApplyBooks` | playwin/routes.py:309-353 | one request changes an existing child's balance by exactly what it books: the award of a task completed, or minus the cost of a reward bought, through that child's URL by its parent; every other request books 0 |
| `History.BalanceIsLedger` | playwin/routes.py:309-353 | over any run in which a child exists throughout, its final points equal its starting points plus the sum of what each request booked on it |
| `History.NewChildBalance` | playwin/routes.py:207-353 | a child created by add_child has, after any later run, a balance equal to the sum of what was booked on it |
| `Routes.Ledger.constructor` | playwin/models.py:12-43 | a ledger over accounts and posts that are keyed by id, have unique usernames and emails, and whose posts have stored authors, starts with no children, tasks or rewards and is valid (by `Database.InitialValid`) |
| `Routes.Ledger.UpdatePost` | playwin/routes.py:116-132 | outcome and new tables are those of `Handlers.UpdatePost`; the invariant is kept |
| `Routes.Ledger.DeletePost` | playwin/routes.py:135-144 | outcome and new tables are those of `Handlers.DeletePost`; the invariant is kept |
| `Routes.Ledger.AddChild` | playwin/routes.py:202-212 | outcome and new tables are those of `Handlers.AddChild`; the invariant is kept |
| `Routes.Ledger.ViewChild` | playwin/routes.py:215-223 | returns what `Handlers.ViewChild` describes and changes nothing |
| `Routes.Ledger.UpdateChild` | playwin/routes.py:226-245 | outcome and new tables are those of `Handlers.UpdateChild`; the invariant is kept |
| `Routes.Ledger.RemoveChild` | playwin/routes.py:248-257 | outcome and new tables are those of `Handlers.RemoveChild`; the invariant is kept |
| `Routes.Ledger.AddTask` | playwin/routes.py:272-286 | outcome and new tables are those of `Handlers.AddTask`; the invariant is kept |
| `Routes.Ledger.RemoveTask` | playwin/routes.py:289-299 | outcome and new tables are those of `Handlers.RemoveTask`; the invariant is kept |
| `Routes.Ledger.CheckTask` | playwin/routes.py:302-313 | outcome and new tables are those of `Handlers.CheckTask`; the invariant is kept |
| `Routes.Ledger.AddReward` | playwin/routes.py:316-330 | outcome and new tables are those of `Handlers.AddReward`; the invariant is kept |
| `Routes.Ledger.RemoveReward` | playwin/routes.py:333-343 | outcome and new tables are those of `Handlers.RemoveReward`; the invariant is kept |
| `Routes.Ledger.BuyReward` | playwin/routes.py:346-357 | outcome and new tables are those of `Handlers.BuyReward`; the invariant is kept |
| `Scenarios.Earn` | playwin/routes.py:272-313 | a parent adds a task worth `award` and completes it: exactly `award` is credited, and completing it again is NotFound |
| `Scenarios.Spend` | playwin/routes.py:316-357 | a parent adds a reward costing `cost`: another user's purchase is Forbidden, and the parent's purchase debits exactly `cost` |
| `Scenarios.EarnThenOverdraw` | playwin/routes.py:202-357 | a new child earns 10 and buys a 15-point reward, ending at −5 |

## Left out

- Registration, login, logout and password hashing (routes.py:26-60) are left out. The visitor is a parameter, and the accounts are given when the ledger is built.
- The password-reset token and its email (models.py:21-32, routes.py:159-199) are left out: they involve cryptography, a clock and the network.
- Picture upload and resizing (routes.py:63-74) are left out. It is file I/O and randomness; its result enters `update_child` as an opaque file name.
- The account page, new post, post view, home and user-posts pages (routes.py:13-23, 77-113, 147-156) fall outside the ledger.
- Rendering, flash messages and redirects are left out. A successful change is `Done` and a rendered form is `FormShown`.
- Form validation (forms.py) is left out: the handlers receive a form that has already passed it.
- `Routes.Ledger.ViewChild`: returns all of the child's tasks and rewards, while the source shows one page of at most 100 of each. Pagination is framework output.
- `Guarantees.ChildrenListing`: lists all of the user's children, while the source shows one page of at most 10. Children with equal names appear in an unspecified order here and in SQL.
- The column widths are predicates (`ChildFits`, `TaskFits`, ...), not part of the store invariant. The child, task and reward forms carry no length validators. Under the SQLite assumption, `String(n)` is not enforced, so `AddChild` with a 51-character name is `Done`. A backend that enforces VARCHAR widths would reject it at commit, and the model does not capture that.
- New keys come from a per-table counter that never reuses a key. Under the SQLite assumption, the default rowid choice (largest key plus one) can reuse the key of a deleted last row; that is not modelled.
- Route ids are `int`. Flask's `<int:...>` converter matches only non-negative digit strings, so a URL with a negative id is a 404 before any login check or handler runs. The model's answers for negative ids describe requests that cannot arrive.
- `date_posted` (default `utcnow`) is an opaque integer, because no modelled route sets it.
- Concurrent requests racing on `points` are left out.
- Integer width is not modelled: `points`, `points_awarded` and `points_required` are unbounded `int`. Under the SQLite assumption, INTEGER holds 64 bits, and the driver refuses a larger value when the row is written. In the source, a `points_awarded` or `points_required` beyond 2^63−1, or a completion or purchase that pushes a balance past the 64-bit range, fails at commit. The model lets it go through.
- Commit failures other than the NOT NULL rejection in `remove_child` and the 64-bit overflow above are left out.
