/**
 * The daily due-date sweep. A registry maps each registered name to the
 * user's library login, Discord id and a `notified` flag. A sweep logs each
 * user in, reads the issued books, and tries one Discord alert per book
 * whose "Over Due" value lies in the window -3..0, unless the user's flag
 * is set; a user whose login gave a cookie then gets the flag set, and a
 * sweep that runs to the end clears every flag.
 *
 * The library login, the page fetch and the Discord `fetch_user` lookup are
 * parameters of the sweep. A failed `send` is only logged, so an attempt to
 * a reachable user is recorded whatever the send does.
 */
module DueDateCheck {
  import opened Wrappers
  import opened PyText
  import opened LibraryApi

  /** One registry entry: `{"username", "password", "user_id", "notified"}`. */
  datatype UserData = UserData(username: string, password: string, userId: string, notified: bool)

  /** A delivery attempt: a built alert for a user Discord found, or a user `fetch_user` could not find. */
  datatype Attempt = Alert(userId: string, message: string) | Unreachable(userId: string)

  /** What one book contributes: nothing, one attempt, or a KeyError that ends the sweep. */
  datatype Step = Skip | Attempted(attempt: Attempt) | Abort

  /** What one user's turn gives: the attempts, whether an exception escaped, whether the flag is set. */
  datatype UserRun = UserRun(attempts: seq<Attempt>, aborted: bool, setFlag: bool)

  /** What a whole sweep gives: the attempts, whether it ran to the end, and the registry after it. */
  datatype Outcome = Outcome(attempts: seq<Attempt>, completed: bool, users: map<string, UserData>)

  /** `int(book["Over Due"].split()[0])`; `None` for the KeyError, IndexError and ValueError the sweep catches. */
  function OverDueDays(book: Book): Option<int> {
    if "Over Due" !in book then None
    else
      match FirstToken(book["Over Due"])
      case None => None
      case Some(token) => ParseInt(token)
  }

  /** "due in 3 days or less": `-3 <= over_due_days <= 0`. */
  predicate InWindow(d: int) {
    -3 <= d <= 0
  }

  /** The Over Due text the library shows, a signed count followed by a word, is read back as that count. */
  lemma OverDueDaysOfText(book: Book, d: int, rest: string)
    requires "Over Due" in book && book["Over Due"] == IntToString(d) + rest
    requires rest == [] || IsSpace(rest[0])
    ensures OverDueDays(book) == Some(d)
  {
    IntToStringShape(d);
    FirstTokenOfWord(IntToString(d), rest);
    ParseIntOfIntToString(d);
  }

  const AlertHead := "\U{1F4DA} **Library Due Date Alert**\nYour book **"

  /** The alert text for a book, with `abs(over_due_days)` written in decimal. */
  function AlertMessage(title: string, days: nat, returnDate: string): (m: string)
    ensures |AlertHead| + |title| <= |m| && m[..|AlertHead|] == AlertHead
    ensures m[|AlertHead|..|AlertHead| + |title|] == title
  {
    AlertHead + title + "** is due in **" + NatToString(days) + " days** (Due Date: "
    + returnDate + ").\nPlease return or renew it soon!"
  }

  /**
   * One turn of the book loop. A book whose Over Due value does not parse
   * is skipped. A book in the window meets the flag; if the flag is clear,
   * `fetch_user` is tried: a miss is logged, a hit builds the message,
   * where a missing Title or Return Date raises a KeyError nobody catches.
   */
  function BookStep(book: Book, userId: string, notified: bool, reachable: string -> bool): (r: Step)
    ensures !r.Skip? ==> OverDueDays(book).Some? && InWindow(OverDueDays(book).value) && !notified
    ensures r.Attempted? ==> r.attempt.userId == userId
    ensures r.Abort? <==> !r.Skip? && reachable(userId) && ("Title" !in book || "Return Date" !in book)
  {
    match OverDueDays(book)
    case None => Skip
    case Some(d) =>
      if !(InWindow(d) && !notified) then Skip
      else if !reachable(userId) then Attempted(Unreachable(userId))
      else if "Title" !in book || "Return Date" !in book then Abort
      else Attempted(Alert(userId, AlertMessage(book["Title"], -d, book["Return Date"])))
  }

  /** The book loop of one user: the attempts in table order, and whether a KeyError escaped. */
  function BookSteps(books: seq<Book>, userId: string, notified: bool, reachable: string -> bool): (seq<Attempt>, bool)
  {
    if books == [] then ([], false)
    else Then(BookStep(books[0], userId, notified, reachable), BookSteps(books[1..], userId, notified, reachable))
  }

  /** One step followed by the rest of the loop: an abort discards the rest. */
  function Then(step: Step, rest: (seq<Attempt>, bool)): (seq<Attempt>, bool) {
    match step
    case Abort => ([], true)
    case Skip => rest
    case Attempted(a) => ([a] + rest.0, rest.1)
  }

  /** `BookSteps` from position `i`: the step for `books[i]`, then the rest. */
  lemma BookStepsAt(books: seq<Book>, i: nat, userId: string, notified: bool, reachable: string -> bool)
    requires i < |books|
    ensures BookSteps(books[i..], userId, notified, reachable) ==
      Then(BookStep(books[i], userId, notified, reachable), BookSteps(books[i + 1..], userId, notified, reachable))
  {
    assert books[i..][0] == books[i] && books[i..][1..] == books[i + 1..];
  }

  /** The loop `for book in library_details`, appending each attempt as it is made. */
  method AlertBooks(books: seq<Book>, userId: string, notified: bool, reachable: string -> bool)
    returns (sent: seq<Attempt>, aborted: bool)
    ensures (sent, aborted) == BookSteps(books, userId, notified, reachable)
  {
    sent := [];
    var i := 0;
    assert books[i..] == books;
    assert [] + BookSteps(books, userId, notified, reachable).0 == BookSteps(books, userId, notified, reachable).0;
    while i < |books|
      invariant 0 <= i <= |books|
      invariant var rest := BookSteps(books[i..], userId, notified, reachable);
        BookSteps(books, userId, notified, reachable) == (sent + rest.0, rest.1)
    {
      var step := BookStep(books[i], userId, notified, reachable);
      BookStepsAt(books, i, userId, notified, reachable);
      if step.Abort? {
        assert sent + [] == sent;
        return sent, true;
      }
      if step.Attempted? {
        AppendAssoc(sent, [step.attempt], BookSteps(books[i + 1..], userId, notified, reachable).0);
        sent := sent + [step.attempt];
      }
      i := i + 1;
    }
    assert sent + [] == sent;
    aborted := false;
  }

  /** A login result is used only when it is a non-empty cookie. */
  predicate Truthy(cookie: Option<string>) {
    cookie.Some? && cookie.value != ""
  }

  /**
   * One user's turn. No cookie: nothing happens. An IndexError from the
   * table conversion escapes before the flag is set. Otherwise the books
   * (if any) are walked and, unless a KeyError escaped, the flag is set.
   */
  function UserTurn(data: UserData, login: (string, string) -> Option<string>,
                    fetchPage: string -> Option<Page>, reachable: string -> bool): (r: UserRun)
    ensures !Truthy(login(data.username, data.password)) ==> r == UserRun([], false, false)
    ensures r.setFlag <==> Truthy(login(data.username, data.password)) && !r.aborted
    ensures data.notified ==> r.attempts == []
  {
    var cookie := login(data.username, data.password);
    if !Truthy(cookie) then UserRun([], false, false)
    else
      match GetBookIssueInfo(fetchPage(cookie.value))
      case IndexErrorRaised => UserRun([], true, false)
      case NoInfo => UserRun([], false, true)
      case Books(books) =>
        NotifiedMeansSilent(books, data.userId, reachable);
        var (attempts, aborted) := BookSteps(books, data.userId, data.notified, reachable);
        UserRun(attempts, aborted, !aborted)
  }

  /** The body of the user loop up to the flag update: login, fetch, and the book loop. */
  method UserTurnSteps(data: UserData, login: (string, string) -> Option<string>,
                       fetchPage: string -> Option<Page>, reachable: string -> bool) returns (run: UserRun)
    ensures run == UserTurn(data, login, fetchPage, reachable)
  {
    var cookie := login(data.username, data.password);
    if !(cookie.Some? && cookie.value != "") {
      return UserRun([], false, false);
    }
    var info := GetBookIssueInfo(fetchPage(cookie.value));
    if info.IndexErrorRaised? {
      return UserRun([], true, false);
    }
    if info.NoInfo? || info.books == [] {
      return UserRun([], false, true);
    }
    var sent, aborted := AlertBooks(info.books, data.userId, data.notified, reachable);
    run := UserRun(sent, aborted, !aborted);
  }

  /** With the flag set no book is in play: no attempt, and so no KeyError either. */
  lemma {:induction false} NotifiedMeansSilent(books: seq<Book>, userId: string, reachable: string -> bool)
    ensures BookSteps(books, userId, true, reachable) == ([], false)
  {
    if books != [] {
      NotifiedMeansSilent(books[1..], userId, reachable);
    }
  }

  predicate Registered(order: seq<string>, users: map<string, UserData>) {
    forall i :: 0 <= i < |order| ==> order[i] in users
  }

  /** A user's turn as a function of the registry entry alone, for fixed login, fetch and lookup results. */
  function TurnOf(login: (string, string) -> Option<string>, fetchPage: string -> Option<Page>,
                  reachable: string -> bool): UserData -> UserRun
  {
    data => UserTurn(data, login, fetchPage, reachable)
  }

  /** The user loop, from a given registry state: one turn per name in order, stopping at an escaped exception. */
  function Visit(order: seq<string>, users: map<string, UserData>, turn: UserData -> UserRun): (o: Outcome)
    requires Registered(order, users)
    ensures o.users.Keys == users.Keys
  {
    if order == [] then Outcome([], true, users)
    else
      var data := users[order[0]];
      var run := turn(data);
      if run.aborted then Outcome(run.attempts, false, users)
      else
        var next := if run.setFlag then users[order[0] := data.(notified := true)] else users;
        var rest := Visit(order[1..], next, turn);
        Outcome(run.attempts + rest.attempts, rest.completed, rest.users)
  }

  /** One step of `Visit` from position `i`: the turn of `order[i]`, then the rest from the updated registry. */
  lemma VisitStep(order: seq<string>, i: nat, users: map<string, UserData>, turn: UserData -> UserRun)
    requires i < |order| && Registered(order, users)
    ensures var data := users[order[i]];
      var run := turn(data);
      var next := if run.setFlag then users[order[i] := data.(notified := true)] else users;
      && Registered(order, next)
      && (run.aborted ==> Visit(order[i..], users, turn) == Outcome(run.attempts, false, users))
      && (!run.aborted ==>
            var rest := Visit(order[i + 1..], next, turn);
            Visit(order[i..], users, turn) == Outcome(run.attempts + rest.attempts, rest.completed, rest.users))
  {
    assert order[i..][0] == order[i] && order[i..][1..] == order[i + 1..];
  }

  /** Every flag cleared, everything else kept. */
  function ClearFlags(users: map<string, UserData>): (r: map<string, UserData>)
    ensures r.Keys == users.Keys
    ensures forall k :: k in r ==> r[k] == users[k].(notified := false)
  {
    map k | k in users :: users[k].(notified := false)
  }

  /** `check_due_dates`: the user loop, then, if nothing escaped, the reset loop. */
  function SweepSpec(order: seq<string>, users: map<string, UserData>, login: (string, string) -> Option<string>,
                     fetchPage: string -> Option<Page>, reachable: string -> bool): Outcome
    requires Registered(order, users)
  {
    var o := Visit(order, users, TurnOf(login, fetchPage, reachable));
    if o.completed then Outcome(o.attempts, true, ClearFlags(o.users)) else o
  }

  predicate AllClear(users: map<string, UserData>) {
    forall k :: k in users ==> !users[k].notified
  }

  /** The registry differs from `users` at most in the `notified` flags. */
  predicate SameButFlags(users: map<string, UserData>, users': map<string, UserData>) {
    users'.Keys == users.Keys && forall k :: k in users ==> users'[k] == users[k].(notified := users'[k].notified)
  }

  lemma {:induction false} VisitOnlyFlags(order: seq<string>, users: map<string, UserData>, turn: UserData -> UserRun)
    requires Registered(order, users)
    ensures SameButFlags(users, Visit(order, users, turn).users)
  {
    if order != [] {
      var data := users[order[0]];
      var run := turn(data);
      if !run.aborted {
        var next := if run.setFlag then users[order[0] := data.(notified := true)] else users;
        VisitOnlyFlags(order[1..], next, turn);
      }
    }
  }

  /**
   * A sweep changes nothing but the flags; one that runs to the end leaves
   * every flag clear, whatever happened during it.
   */
  lemma SweepKeepsRegistry(order: seq<string>, users: map<string, UserData>, login: (string, string) -> Option<string>,
                           fetchPage: string -> Option<Page>, reachable: string -> bool)
    requires Registered(order, users)
    ensures var o := SweepSpec(order, users, login, fetchPage, reachable);
      SameButFlags(users, o.users) && (o.completed ==> AllClear(o.users))
  {
    VisitOnlyFlags(order, users, TurnOf(login, fetchPage, reachable));
  }

  /** The user loop when each user's turn reads the entry the registry held before the sweep. */
  function TurnsFromEntry(order: seq<string>, users: map<string, UserData>, turn: UserData -> UserRun): (seq<Attempt>, bool)
    requires Registered(order, users)
  {
    if order == [] then ([], true)
    else
      var run := turn(users[order[0]]);
      if run.aborted then (run.attempts, false)
      else
        var (rest, completed) := TurnsFromEntry(order[1..], users, turn);
        (run.attempts + rest, completed)
  }

  /**
   * Per-user isolation: with distinct names, a user's turn sees exactly the
   * entry it had when the sweep began, so the sweep's attempts are the
   * users' own attempts concatenated in registry order.
   */
  lemma {:induction false} VisitIsolatesUsers(order: seq<string>, entry: map<string, UserData>, users: map<string, UserData>,
                                              turn: UserData -> UserRun)
    requires Registered(order, entry) && Registered(order, users)
    requires forall i, j :: 0 <= i < j < |order| ==> order[i] != order[j]
    requires forall i :: 0 <= i < |order| ==> users[order[i]] == entry[order[i]]
    ensures var o := Visit(order, users, turn);
      (o.attempts, o.completed) == TurnsFromEntry(order, entry, turn)
  {
    if order != [] {
      var data := users[order[0]];
      var run := turn(data);
      if !run.aborted {
        var next := if run.setFlag then users[order[0] := data.(notified := true)] else users;
        forall i | 0 <= i < |order[1..]| ensures next[order[1..][i]] == entry[order[1..][i]] {
          assert order[1..][i] == order[i + 1] != order[0];
        }
        VisitIsolatesUsers(order[1..], entry, next, turn);
      }
    }
  }

  /**
   * After a sweep that ran to the end, the next sweep's user loop goes as
   * if every entry had had its flag cleared: each turn runs with the flag
   * clear, on the entry it had before either sweep otherwise.
   */
  lemma NextSweepStartsClear(order: seq<string>, users: map<string, UserData>, login: (string, string) -> Option<string>,
                             fetchPage: string -> Option<Page>, reachable: string -> bool, turn: UserData -> UserRun)
    requires Registered(order, users)
    requires forall i, j :: 0 <= i < j < |order| ==> order[i] != order[j]
    requires SweepSpec(order, users, login, fetchPage, reachable).completed
    ensures var after := SweepSpec(order, users, login, fetchPage, reachable).users;
      var o := Visit(order, after, turn);
      (o.attempts, o.completed) == TurnsFromEntry(order, ClearFlags(users), turn)
  {
    var after := SweepSpec(order, users, login, fetchPage, reachable).users;
    SweepKeepsRegistry(order, users, login, fetchPage, reachable);
    assert after == ClearFlags(users);
    VisitIsolatesUsers(order, ClearFlags(users), after, turn);
  }

  /** The books whose Over Due value parses into the alert window, in table order. */
  function InWindowBooks(books: seq<Book>): (r: seq<Book>)
    ensures |r| <= |books|
    ensures forall j :: 0 <= j < |r| ==> OverDueDays(r[j]).Some? && InWindow(OverDueDays(r[j]).value)
  {
    if books == [] then []
    else if OverDueDays(books[0]).Some? && InWindow(OverDueDays(books[0]).value) then [books[0]] + InWindowBooks(books[1..])
    else InWindowBooks(books[1..])
  }

  /** The selection keeps table order: selecting from two stretches of the table one after the other. */
  lemma {:induction false} InWindowBooksConcat(a: seq<Book>, b: seq<Book>)
    ensures InWindowBooks(a + b) == InWindowBooks(a) + InWindowBooks(b)
  {
    if a == [] {
      assert a + b == b;
    } else {
      assert (a + b)[0] == a[0] && (a + b)[1..] == a[1..] + b;
      InWindowBooksConcat(a[1..], b);
    }
  }

  /** Exactly the in-window books of the table are selected. */
  lemma {:induction false} InWindowBooksMembers(books: seq<Book>)
    ensures forall b :: b in InWindowBooks(books) ==> b in books
    ensures forall b :: b in books && OverDueDays(b).Some? && InWindow(OverDueDays(b).value) ==> b in InWindowBooks(books)
  {
    if books != [] {
      InWindowBooksMembers(books[1..]);
      assert forall b :: b in books ==> b == books[0] || b in books[1..];
    }
  }

  /**
   * With the flag clear and nothing escaping, every in-window book of the
   * user gets its own attempt, in table order, and no other book does.
   */
  lemma {:induction false} ClearFlagAlertsEveryBook(books: seq<Book>, userId: string, reachable: string -> bool)
    requires !BookSteps(books, userId, false, reachable).1
    ensures var sent := BookSteps(books, userId, false, reachable).0;
      && |sent| == |InWindowBooks(books)|
      && forall j :: 0 <= j < |sent| ==> BookStep(InWindowBooks(books)[j], userId, false, reachable) == Attempted(sent[j])
  {
    if books != [] {
      var step := BookStep(books[0], userId, false, reachable);
      var later := BookSteps(books[1..], userId, false, reachable);
      assert BookSteps(books, userId, false, reachable) == Then(step, later);
      assert !step.Abort?;
      ClearFlagAlertsEveryBook(books[1..], userId, reachable);
      var w := InWindowBooks(books[1..]);
      if step.Attempted? {
        var sent := [step.attempt] + later.0;
        assert InWindowBooks(books) == [books[0]] + w;
        forall j | 0 <= j < |sent|
          ensures BookStep(([books[0]] + w)[j], userId, false, reachable) == Attempted(sent[j])
        {
          if j > 0 { assert ([books[0]] + w)[j] == w[j - 1] && sent[j] == later.0[j - 1]; }
        }
      } else {
        assert InWindowBooks(books) == w;
      }
    }
  }

  /** A book whose Over Due value does not parse changes nothing for the books around it. */
  lemma {:induction false} UnparsableBookSkipped(before: seq<Book>, book: Book, after: seq<Book>, userId: string,
                                                 notified: bool, reachable: string -> bool)
    requires OverDueDays(book).None?
    ensures BookSteps(before + ([book] + after), userId, notified, reachable) == BookSteps(before + after, userId, notified, reachable)
  {
    if before == [] {
      assert before + ([book] + after) == [book] + after;
      assert before + after == after;
      assert BookStep(book, userId, notified, reachable) == Skip;
      BookStepsCons(book, after, userId, notified, reachable);
    } else {
      var rest := before[1..];
      UnparsableBookSkipped(rest, book, after, userId, notified, reachable);
      ConsConcat(before, [book] + after);
      ConsConcat(before, after);
      BookStepsCons(before[0], rest + ([book] + after), userId, notified, reachable);
      BookStepsCons(before[0], rest + after, userId, notified, reachable);
    }
  }

  lemma ConsConcat(xs: seq<Book>, ys: seq<Book>)
    requires xs != []
    ensures xs + ys == [xs[0]] + (xs[1..] + ys)
  {
  }

  /** `BookSteps` of a list with a head: the head's step, then the tail. */
  lemma BookStepsCons(b: Book, tail: seq<Book>, userId: string, notified: bool, reachable: string -> bool)
    ensures BookSteps([b] + tail, userId, notified, reachable) ==
            Then(BookStep(b, userId, notified, reachable), BookSteps(tail, userId, notified, reachable))
  {
    assert ([b] + tail)[0] == b && ([b] + tail)[1..] == tail;
  }

  /** The sweep ends early only at a book in the window, for a reachable user, that lacks Title or Return Date. */
  lemma {:induction false} AbortOnlyOnMissingKey(books: seq<Book>, userId: string, notified: bool, reachable: string -> bool)
    ensures BookSteps(books, userId, notified, reachable).1 <==>
      exists j :: 0 <= j < |books| && BookStep(books[j], userId, notified, reachable).Abort?
  {
    if books != [] {
      var tail := books[1..];
      AbortOnlyOnMissingKey(tail, userId, notified, reachable);
      assert BookSteps(books, userId, notified, reachable).1 <==>
        BookStep(books[0], userId, notified, reachable).Abort? || BookSteps(tail, userId, notified, reachable).1;
      ExistsShift(books, b => BookStep(b, userId, notified, reachable).Abort?);
    }
  }

  /** An element that satisfies `p` is the first one or one of the rest. */
  lemma ExistsShift<T>(xs: seq<T>, p: T -> bool)
    requires xs != []
    ensures (exists j :: 0 <= j < |xs| && p(xs[j])) <==> p(xs[0]) || exists j :: 0 <= j < |xs[1..]| && p(xs[1..][j])
  {
    if exists j :: 0 <= j < |xs| && p(xs[j]) {
      var j :| 0 <= j < |xs| && p(xs[j]);
      if j > 0 {
        assert xs[1..][j - 1] == xs[j];
      }
    }
  }

  lemma AppendAssoc(a: seq<Attempt>, b: seq<Attempt>, c: seq<Attempt>)
    ensures (a + b) + c == a + (b + c)
  {
  }

  /** The module-level `registered_users` dictionary, in its insertion order. */
  class Registry {
    var order: seq<string>
    var users: map<string, UserData>

    ghost predicate Valid()
      reads this
    {
      && (forall i, j :: 0 <= i < j < |order| ==> order[i] != order[j])
      && (forall k :: k in users <==> k in order)
    }

    constructor ()
      ensures Valid() && AllClear(users)
      ensures order == ["BIKASH"]
      ensures users == map["BIKASH" := UserData("078BEI010", "078BEI010", "748162601237872682", false)]
    {
      order := ["BIKASH"];
      users := map["BIKASH" := UserData("078BEI010", "078BEI010", "748162601237872682", false)];
    }

    /**
     * `check_due_dates`: returns the delivery attempts in the order they are
     * made and whether the sweep ran to the end (`false` when an IndexError
     * or KeyError escaped, which leaves the flags as they were at that point).
     */
    method Sweep(login: (string, string) -> Option<string>, fetchPage: string -> Option<Page>, reachable: string -> bool)
      returns (attempts: seq<Attempt>, completed: bool)
      requires Valid()
      modifies this
      ensures Valid() && order == old(order)
      ensures Outcome(attempts, completed, users) == SweepSpec(old(order), old(users), login, fetchPage, reachable)
      ensures completed ==> AllClear(users)
    {
      assert Registered(order, users);
      attempts, completed := VisitUsers(login, fetchPage, reachable);
      if completed {
        ResetFlags();
      }
    }

    /** The loop `for user, data in registered_users.items()`, up to an escaped exception. */
    method VisitUsers(login: (string, string) -> Option<string>, fetchPage: string -> Option<Page>, reachable: string -> bool)
      returns (attempts: seq<Attempt>, completed: bool)
      requires Registered(order, users)
      modifies this
      ensures order == old(order) && users.Keys == old(users).Keys
      ensures Outcome(attempts, completed, users) == Visit(old(order), old(users), TurnOf(login, fetchPage, reachable))
    {
      ghost var turn := TurnOf(login, fetchPage, reachable);
      attempts := [];
      var i := 0;
      assert order[i..] == order;
      assert [] + Visit(order, users, turn).attempts == Visit(order, users, turn).attempts;
      while i < |order|
        invariant 0 <= i <= |order| && order == old(order)
        invariant Registered(order, users)
        invariant var rest := Visit(order[i..], users, turn);
          Visit(order, old(users), turn) == Outcome(attempts + rest.attempts, rest.completed, rest.users)
      {
        VisitStep(order, i, users, turn);
        var run := TakeTurn(order[i], login, fetchPage, reachable);
        if run.aborted {
          attempts := attempts + run.attempts;
          return attempts, false;
        }
        AppendAssoc(attempts, run.attempts, Visit(order[i + 1..], users, turn).attempts);
        attempts := attempts + run.attempts;
        i := i + 1;
      }
      assert attempts + [] == attempts;
      completed := true;
    }

    /** One pass of the user loop: the user's turn, then `data["notified"] = True` when it finished with a session. */
    method TakeTurn(name: string, login: (string, string) -> Option<string>, fetchPage: string -> Option<Page>,
                    reachable: string -> bool) returns (run: UserRun)
      requires name in users
      modifies this
      ensures order == old(order)
      ensures run == TurnOf(login, fetchPage, reachable)(old(users)[name])
      ensures users == if !run.aborted && run.setFlag then old(users)[name := old(users)[name].(notified := true)] else old(users)
    {
      var data := users[name];
      run := UserTurnSteps(data, login, fetchPage, reachable);
      if !run.aborted && run.setFlag {
        users := users[name := data.(notified := true)];
      }
    }

    /** The closing loop `for data in registered_users.values(): data["notified"] = False`. */
    method ResetFlags()
      requires Valid()
      modifies this
      ensures Valid() && order == old(order)
      ensures users == ClearFlags(old(users))
    {
      var j := 0;
      while j < |order|
        invariant 0 <= j <= |order| && order == old(order)
        invariant users.Keys == old(users).Keys
        invariant forall k :: k in users ==> users[k] == if k in order[..j] then old(users)[k].(notified := false) else old(users)[k]
      {
        assert order[..j + 1] == order[..j] + [order[j]];
        users := users[order[j] := users[order[j]].(notified := false)];
        j := j + 1;
      }
      assert order[..j] == order;
    }
  }
}
