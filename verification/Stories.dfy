/** Stories, whose pages unlock one after the other (internal/repository/stories.go). */
module Stories {
  import opened Prelude
  import Levels

  type PageId = string

  datatype Page = Page(id: PageId, index: int, xpReward: int)

  /** One story: its level gate, its page rows in order of insertion, and who completed which page. */
  datatype Story = Story(levelRequired: int, pages: seq<Page>, done: set<(User, PageId)>)

  datatype PageRefusal = NotFound | LevelTooLow | Locked

  datatype Outcome = Accepted(awarded: int, newly: bool) | Refused(reason: PageRefusal)

  /** MAX(page_index) + 1, or 0 in a story without pages. */
  function NextIndex(pages: seq<Page>): int {
    if pages == [] then 0
    else
      var rest := NextIndex(Init(pages));
      if Last(pages).index + 1 > rest then Last(pages).index + 1 else rest
  }

  function AddPage(s: Story, id: PageId, xpReward: int): Story {
    s.(pages := s.pages + [Page(id, NextIndex(s.pages), xpReward)])
  }

  function FindPage(pages: seq<Page>, id: PageId): Option<Page> {
    if pages == [] then None else if Last(pages).id == id then Some(Last(pages)) else FindPage(Init(pages), id)
  }

  predicate PreviousDone(s: Story, u: User, index: int) {
    exists i :: 0 <= i < |s.pages| && s.pages[i].index == index - 1 && (u, s.pages[i].id) in s.done
  }

  /** One request to complete a page, by a user of the given level. */
  function CompletePage(s: Story, u: User, level: int, id: PageId): (Story, Outcome) {
    match FindPage(s.pages, id)
    case None => (s, Refused(NotFound))
    case Some(p) =>
      if level < s.levelRequired then (s, Refused(LevelTooLow))
      else if p.index > 0 && !PreviousDone(s, u, p.index) then (s, Refused(Locked))
      else
        var newly := (u, id) !in s.done;
        (s.(done := s.done + {(u, id)}), Accepted(if newly then p.xpReward else 0, newly))
  }

  ghost predicate HasPage(pages: seq<Page>, id: PageId) {
    exists i :: 0 <= i < |pages| && pages[i].id == id
  }

  /** If the user completed the i-th page, then also the one before it. */
  ghost predicate InOrder(s: Story, u: User, i: int)
    requires 0 < i < |s.pages|
  {
    (u, s.pages[i].id) in s.done ==> (u, s.pages[i - 1].id) in s.done
  }

  /** Pages are numbered without gaps from 0, and each user has completed a prefix of them. */
  ghost predicate Sound(s: Story) {
    && (forall i :: 0 <= i < |s.pages| ==> s.pages[i].index == i)
    && (forall i, j :: 0 <= i < j < |s.pages| ==> s.pages[i].id != s.pages[j].id)
    && (forall k :: k in s.done ==> HasPage(s.pages, k.1))
    && (forall u, i :: 0 < i < |s.pages| ==> InOrder(s, u, i))
  }

  lemma {:induction false} NextIndexIsLength(pages: seq<Page>)
    requires forall i :: 0 <= i < |pages| ==> pages[i].index == i
    ensures NextIndex(pages) == |pages|
  {
    if pages != [] { NextIndexIsLength(Init(pages)); }
  }

  lemma {:induction false} FindPageFinds(pages: seq<Page>, id: PageId)
    ensures match FindPage(pages, id)
            case Some(p) => exists i :: 0 <= i < |pages| && pages[i] == p && p.id == id
            case None => forall i :: 0 <= i < |pages| ==> pages[i].id != id
  {
    if pages != [] { FindPageFinds(Init(pages), id); }
  }

  lemma AddPageKeeps(s: Story, id: PageId, xpReward: int)
    requires Sound(s) && forall i :: 0 <= i < |s.pages| ==> s.pages[i].id != id
    ensures Sound(AddPage(s, id, xpReward))
  {
    NextIndexIsLength(s.pages);
    var t := AddPage(s, id, xpReward);
    forall k | k in t.done ensures HasPage(t.pages, k.1) {
      assert HasPage(s.pages, k.1);
      var i :| 0 <= i < |s.pages| && s.pages[i].id == k.1;
      assert t.pages[i].id == k.1;
    }
    forall u, i | 0 < i < |t.pages| ensures InOrder(t, u, i) {
      if i < |s.pages| {
        assert InOrder(s, u, i);
      } else {
        assert (u, id) !in s.done;
      }
    }
  }

  lemma CompletePageKeeps(s: Story, u: User, level: int, id: PageId)
    requires Sound(s)
    ensures Sound(CompletePage(s, u, level, id).0)
  {
    FindPageFinds(s.pages, id);
    var t := CompletePage(s, u, level, id).0;
    if t != s {
      var at :| 0 <= at < |s.pages| && s.pages[at].id == id;
      forall v, i | 0 < i < |t.pages| ensures InOrder(t, v, i) {
        assert InOrder(s, v, i);
      }
    }
  }

  /** A request that names no page is refused and changes nothing. */
  lemma NoSuchPage(s: Story, u: User, level: int, id: PageId)
    requires !HasPage(s.pages, id)
    ensures CompletePage(s, u, level, id) == (s, Refused(NotFound))
  {
    FindPageFinds(s.pages, id);
  }

  /**
   The i-th page is completed exactly by a user of the story's level who has completed the page
   before it. It is then on record, whatever it is worth, and pays the first time.
   */
  lemma CompletesExactly(s: Story, u: User, level: int, i: int)
    requires Sound(s) && 0 <= i < |s.pages|
    ensures var id := s.pages[i].id; var (t, outcome) := CompletePage(s, u, level, id);
      if level < s.levelRequired then t == s && outcome == Refused(LevelTooLow)
      else if i > 0 && (u, s.pages[i - 1].id) !in s.done then t == s && outcome == Refused(Locked)
      else
        && t == s.(done := t.done) && t.done == s.done + {(u, id)}
        && outcome.Accepted? && (outcome.newly <==> (u, id) !in s.done)
        && outcome.awarded == if (u, id) in s.done then 0 else s.pages[i].xpReward
  {
    FindPageFinds(s.pages, s.pages[i].id);
    if i > 0 && (u, s.pages[i - 1].id) in s.done { assert s.pages[i - 1].index == i - 1; }
  }

  /** The unlock flag of the i-th page as the story view shows it. */
  ghost predicate ShownUnlocked(s: Story, u: User, level: int, i: int)
    requires 0 <= i < |s.pages|
  {
    level >= s.levelRequired && (i == 0 || (u, s.pages[i - 1].id) in s.done)
  }

  /** Completing a page is accepted exactly when the view shows it unlocked. */
  lemma AcceptedExactlyWhenUnlocked(s: Story, u: User, level: int, i: int)
    requires Sound(s) && 0 <= i < |s.pages|
    ensures CompletePage(s, u, level, s.pages[i].id).1.Accepted? <==> ShownUnlocked(s, u, level, i)
  {
    FindPageFinds(s.pages, s.pages[i].id);
    if i > 0 && (u, s.pages[i - 1].id) in s.done { assert s.pages[i - 1].index == i - 1; }
  }

  /** Every user's completed pages are the first k, for some k. */
  lemma {:induction false} DoneIsPrefix(s: Story, u: User, n: nat) returns (k: nat)
    requires Sound(s) && n <= |s.pages|
    ensures k <= n
    ensures forall i :: 0 <= i < n ==> ((u, s.pages[i].id) in s.done <==> i < k)
  {
    if n == 0 {
      k := 0;
    } else {
      k := DoneIsPrefix(s, u, n - 1);
      if n > 1 { assert InOrder(s, u, n - 1); }
      if (u, s.pages[n - 1].id) in s.done { k := n; }
    }
  }

  // ----- Experience -----------------------------------------------------------------------------

  /** XP of the first n pages a user has completed. */
  function EarnedXP(s: Story, u: User, n: nat): int
    requires n <= |s.pages|
  {
    if n == 0 then 0
    else EarnedXP(s, u, n - 1) + if (u, s.pages[n - 1].id) in s.done then s.pages[n - 1].xpReward else 0
  }

  function CompletedPages(s: Story, u: User, n: nat): nat
    requires n <= |s.pages|
  {
    if n == 0 then 0
    else CompletedPages(s, u, n - 1) + if (u, s.pages[n - 1].id) in s.done then 1 else 0
  }

  /** The pages counted as completed are the first ones, one for each. */
  lemma {:induction false} CountIsPrefix(s: Story, u: User, n: nat)
    requires Sound(s) && n <= |s.pages|
    ensures CompletedPages(s, u, n) <= n
    ensures forall i :: 0 <= i < n ==> ((u, s.pages[i].id) in s.done <==> i < CompletedPages(s, u, n))
  {
    if n > 0 {
      CountIsPrefix(s, u, n - 1);
      if n > 1 { assert InOrder(s, u, n - 1); }
    }
  }

  datatype Event =
    | NewPage(id: PageId, xpReward: int)
    | Raise(levelRequired: int)
    | Complete(user: User, level: int, id: PageId)

  /** A page id is a fresh key; reusing one is refused by the table. */
  function Next(s: Story, e: Event): Story {
    match e
    case NewPage(id, xp) => if FindPage(s.pages, id).Some? then s else AddPage(s, id, xp)
    case Raise(required) => s.(levelRequired := required)
    case Complete(u, level, id) => CompletePage(s, u, level, id).0
  }

  /** Raising or lowering a story's level changes nothing else, and what users may do next accordingly. */
  lemma RaisesExactly(s: Story, required: int)
    ensures Next(s, Raise(required)).levelRequired == required
    ensures Next(s, Raise(required)).pages == s.pages && Next(s, Raise(required)).done == s.done
  {
  }

  function Run(s: Story, es: seq<Event>): Story {
    if es == [] then s else Next(Run(s, Init(es)), Last(es))
  }

  /** What one event awards a user. */
  function AwardOf(s: Story, e: Event, u: User): int {
    match e
    case Complete(v, level, id) =>
      var outcome := CompletePage(s, v, level, id).1;
      if v == u && outcome.Accepted? then outcome.awarded else 0
    case _ => 0
  }

  /** XP awarded to a user along a run. */
  function Awarded(s: Story, es: seq<Event>, u: User): int {
    if es == [] then 0
    else Awarded(s, Init(es), u) + AwardOf(Run(s, Init(es)), Last(es), u)
  }

  lemma {:induction false} EarnedAfterDone(s: Story, u: User, v: User, at: nat, n: nat)
    requires Sound(s) && at < |s.pages| && n <= |s.pages|
    requires (v, s.pages[at].id) !in s.done
    ensures EarnedXP(s.(done := s.done + {(v, s.pages[at].id)}), u, n)
         == EarnedXP(s, u, n) + if u == v && at < n then s.pages[at].xpReward else 0
  {
    if n > 0 { EarnedAfterDone(s, u, v, at, n - 1); }
  }

  lemma {:induction false} EarnedOfPrefix(s: Story, t: Story, u: User, n: nat)
    requires n <= |s.pages| <= |t.pages| && t.pages[..|s.pages|] == s.pages && t.done == s.done
    ensures EarnedXP(t, u, n) == EarnedXP(s, u, n)
  {
    if n > 0 {
      assert t.pages[n - 1] == s.pages[n - 1];
      EarnedOfPrefix(s, t, u, n - 1);
    }
  }

  lemma AddPageEarns(s: Story, id: PageId, xp: int, u: User)
    requires Sound(s) && forall i :: 0 <= i < |s.pages| ==> s.pages[i].id != id
    ensures EarnedXP(AddPage(s, id, xp), u, |s.pages| + 1) == EarnedXP(s, u, |s.pages|)
  {
    EarnedOfPrefix(s, AddPage(s, id, xp), u, |s.pages|);
    assert (u, id) !in s.done;
  }

  lemma CompletePageEarns(s: Story, v: User, level: int, id: PageId, u: User)
    requires Sound(s)
    ensures EarnedXP(CompletePage(s, v, level, id).0, u, |s.pages|)
         == EarnedXP(s, u, |s.pages|) + AwardOf(s, Complete(v, level, id), u)
  {
    FindPageFinds(s.pages, id);
    var t := CompletePage(s, v, level, id).0;
    if (v, id) in s.done {
      assert t == s;
    } else if t != s {
      var at :| 0 <= at < |s.pages| && s.pages[at].id == id;
      EarnedAfterDone(s, u, v, at, |s.pages|);
    }
  }

  lemma NextSoundAndEarned(s: Story, e: Event, u: User)
    requires Sound(s)
    ensures Sound(Next(s, e))
    ensures EarnedXP(Next(s, e), u, |Next(s, e).pages|) == EarnedXP(s, u, |s.pages|) + AwardOf(s, e, u)
  {
    match e
    case NewPage(id, xp) =>
      FindPageFinds(s.pages, id);
      if FindPage(s.pages, id).None? {
        AddPageKeeps(s, id, xp);
        AddPageEarns(s, id, xp, u);
      }
    case Raise(required) =>
      var t := s.(levelRequired := required);
      forall v, i | 0 < i < |t.pages| ensures InOrder(t, v, i) { assert InOrder(s, v, i); }
      EarnedOfPrefix(s, t, u, |s.pages|);
    case Complete(v, level, id) =>
      CompletePageKeeps(s, v, level, id);
      CompletePageEarns(s, v, level, id, u);
  }

  /** The XP a story shows as earned is exactly the XP it has awarded, over any run of a new story. */
  lemma {:induction false} ShownXPIsAwardedXP(s: Story, es: seq<Event>, u: User)
    requires s.pages == [] && s.done == {}
    ensures Sound(Run(s, es))
    ensures EarnedXP(Run(s, es), u, |Run(s, es).pages|) == Awarded(s, es, u)
  {
    if es != [] {
      ShownXPIsAwardedXP(s, Init(es), u);
      NextSoundAndEarned(Run(s, Init(es)), Last(es), u);
    }
  }

  // ----- The view and the level gate --------------------------------------------------------------

  datatype PageView = PageView(page: Page, completed: bool, unlocked: bool)

  datatype StoryView = StoryView(unlocked: bool, pages: seq<PageView>, completedPages: nat, earnedXP: int)

  /** The view of the i-th page is right for a user of the given level. */
  ghost predicate Shows(v: PageView, s: Story, u: User, level: int, i: int)
    requires 0 <= i < |s.pages|
  {
    && v.page == s.pages[i]
    && (v.completed <==> (u, s.pages[i].id) in s.done)
    && (v.unlocked <==> ShownUnlocked(s, u, level, i))
  }

  /** One page, after the pages shown before it. */
  method ShowPage(s: Story, u: User, unlocked: bool, ghost level: int, before: seq<PageView>)
    returns (v: PageView)
    requires |before| < |s.pages| && (unlocked <==> level >= s.levelRequired)
    requires before != [] ==> Shows(Last(before), s, u, level, |before| - 1)
    ensures Shows(v, s, u, level, |before|)
  {
    var completed := (u, s.pages[|before|].id) in s.done;
    var pageUnlocked := false;
    if !unlocked {
      pageUnlocked := false;
    } else if before == [] {
      pageUnlocked := true;
    } else {
      pageUnlocked := Last(before).completed;
    }
    v := PageView(s.pages[|before|], completed, pageUnlocked);
  }

  /** All pages in order, with the sums over the completed ones. */
  method ShowPages(s: Story, u: User, unlocked: bool, ghost level: int)
    returns (pages: seq<PageView>, completedPages: nat, earnedXP: int)
    requires unlocked <==> level >= s.levelRequired
    ensures |pages| == |s.pages|
    ensures forall i :: 0 <= i < |s.pages| ==> Shows(pages[i], s, u, level, i)
    ensures completedPages == CompletedPages(s, u, |s.pages|)
    ensures earnedXP == EarnedXP(s, u, |s.pages|)
  {
    pages, completedPages, earnedXP := [], 0, 0;
    for i := 0 to |s.pages|
      invariant |pages| == i
      invariant forall k :: 0 <= k < i ==> Shows(pages[k], s, u, level, k)
      invariant completedPages == CompletedPages(s, u, i)
      invariant earnedXP == EarnedXP(s, u, i)
    {
      var page := ShowPage(s, u, unlocked, level, pages);
      if page.completed {
        completedPages := completedPages + 1;
        earnedXP := earnedXP + s.pages[i].xpReward;
      }
      pages := pages + [page];
    }
  }

  /** The story as a user with `xp` experience points sees it. */
  method GetStory(s: Story, u: User, xp: int) returns (v: StoryView, ghost level: int)
    requires Sound(s) && xp >= 0
    ensures exists into :: Levels.Stands(xp, level, into)
    ensures v.unlocked <==> level >= s.levelRequired
    ensures |v.pages| == |s.pages|
    ensures forall i :: 0 <= i < |s.pages| ==> Shows(v.pages[i], s, u, level, i)
    ensures v.completedPages == CompletedPages(s, u, |s.pages|)
    ensures v.earnedXP == EarnedXP(s, u, |s.pages|)
  {
    var viewerLevel, into, next := Levels.LevelFromXP(xp);
    var unlocked := viewerLevel >= s.levelRequired;
    var pages, completedPages, earnedXP := ShowPages(s, u, unlocked, viewerLevel);
    return StoryView(unlocked, pages, completedPages, earnedXP), viewerLevel;
  }

  /** The gate in terms of experience: a story opens at its level's threshold and not a point before. */
  lemma GateOpensAtThreshold(s: Story, xp: int, level: int, into: int)
    requires xp >= 0 && Levels.Stands(xp, level, into) && 1 <= s.levelRequired <= Levels.MAX_LEVEL
    ensures level >= s.levelRequired <==> xp >= Levels.XPAtLevel(s.levelRequired)
  {
    Levels.ReachedExactlyAtThreshold(xp, level, into, s.levelRequired);
  }

  class Store {
    var levelRequired: int
    var pages: seq<Page>
    var done: set<(User, PageId)>

    function Tables(): Story
      reads this
    {
      Story(levelRequired, pages, done)
    }

    ghost predicate Valid()
      reads this
    {
      Sound(Tables())
    }

    constructor (levelRequired: int)
      ensures Valid() && Tables() == Story(levelRequired, [], {})
    {
      this.levelRequired, pages, done := levelRequired, [], {};
    }

    /** Appends a page at the next index. */
    method AddStoryPage(id: PageId, xpReward: int) returns (index: int)
      requires Valid() && !HasPage(pages, id)
      modifies this`pages
      ensures Valid() && Tables() == AddPage(old(Tables()), id, xpReward)
      ensures index == old(|pages|) && pages == old(pages) + [Page(id, index, xpReward)]
    {
      AddPageKeeps(Tables(), id, xpReward);
      NextIndexIsLength(pages);
      index := 0;
      for i := 0 to |pages|
        invariant index == NextIndex(pages[..i])
      {
        assert Init(pages[..i + 1]) == pages[..i];
        if pages[i].index + 1 > index {
          index := pages[i].index + 1;
        }
      }
      assert pages[..|pages|] == pages;
      pages := pages + [Page(id, index, xpReward)];
    }

    /** `xp` is the user's total; awards the page's XP the first time. */
    method CompleteStoryPage(u: User, xp: int, id: PageId) returns (outcome: Outcome, ghost level: int)
      requires Valid() && xp >= 0
      modifies this`done
      ensures exists into :: Levels.Stands(xp, level, into)
      ensures Valid() && (Tables(), outcome) == CompletePage(old(Tables()), u, level, id)
    {
      var viewerLevel, into, next := Levels.LevelFromXP(xp);
      level := viewerLevel;
      CompletePageKeeps(Tables(), u, level, id);
      var found := FindPage(pages, id);
      if found.None? {
        return Refused(NotFound), level;
      }
      if viewerLevel < levelRequired {
        return Refused(LevelTooLow), level;
      }
      var p := found.value;
      if p.index > 0 && !PreviousDone(Tables(), u, p.index) {
        return Refused(Locked), level;
      }
      var newly := (u, id) !in done;
      done := done + {(u, id)};
      return Accepted(if newly then p.xpReward else 0, newly), level;
    }
  }
}
