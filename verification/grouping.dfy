/** How the message list is laid out: a message opens a new author block
    (avatar, name and time) unless it follows a message by the same author
    sent at most five minutes earlier, and a date marker appears wherever the
    calendar day changes. Timestamps are milliseconds. */
module Grouping {
  import opened Records

  /** Five minutes in milliseconds. */
  const GroupGap: int := 300000

  /** `m` is shown inside the block of `prev`: same author, and sent no more
      than `GroupGap` after it. */
  predicate Continues(prev: Message, m: Message) {
    prev.user == m.user && m.timestamp - prev.timestamp <= GroupGap
  }

  /** `showUser` for the message at index `i`. */
  predicate StartsGroup(log: seq<Message>, i: int)
    requires 0 <= i < |log|
  {
    i == 0 || log[i - 1].user != log[i].user || log[i].timestamp - log[i - 1].timestamp > GroupGap
  }

  /** `showDate` for the message at index `i`; `dayOf` stands for the
      locale-dependent date label of a timestamp. */
  predicate StartsDay(log: seq<Message>, i: int, dayOf: int -> string)
    requires 0 <= i < |log|
  {
    i == 0 || dayOf(log[i].timestamp) != dayOf(log[i - 1].timestamp)
  }

  function Flatten(groups: seq<seq<Message>>): seq<Message>
    decreases |groups|
  {
    if groups == [] then [] else Flatten(groups[..|groups| - 1]) + groups[|groups| - 1]
  }

  /** Each block holds messages that continue one another. */
  predicate Cohesive(groups: seq<seq<Message>>) {
    forall j, k :: 0 <= j < |groups| && 0 < k < |groups[j]| ==> Continues(groups[j][k - 1], groups[j][k])
  }

  /** Consecutive blocks could not have been merged. */
  predicate Separated(groups: seq<seq<Message>>) {
    forall j :: 0 < j < |groups| && groups[j - 1] != [] && groups[j] != [] ==>
      !Continues(groups[j - 1][|groups[j - 1]| - 1], groups[j][0])
  }

  predicate NonEmpty(groups: seq<seq<Message>>) {
    forall j :: 0 <= j < |groups| ==> groups[j] != []
  }

  /** The blocks so far are a faithful cut of `log`. */
  predicate CutOf(groups: seq<seq<Message>>, log: seq<Message>) {
    && Flatten(groups) == log
    && NonEmpty(groups) && Cohesive(groups) && Separated(groups)
    && (log == [] <==> groups == [])
  }

  /** Add one message to the blocks: into the last block when it continues
      that block's last message, into a new block otherwise. */
  function Extend(groups: seq<seq<Message>>, m: Message): seq<seq<Message>>
    requires NonEmpty(groups)
  {
    if groups == [] || !Continues(groups[|groups| - 1][|groups[|groups| - 1]| - 1], m) then groups + [[m]]
    else groups[..|groups| - 1] + [groups[|groups| - 1] + [m]]
  }

  /** The author blocks of a log, as they appear on screen: the log cut
      before every message that does not continue the one before it. */
  function Groups(log: seq<Message>): (r: seq<seq<Message>>)
    ensures CutOf(r, log)
    decreases |log|
  {
    if log == [] then []
    else
      var front := log[..|log| - 1];
      assert log == front + [log[|log| - 1]];
      var g := Groups(front);
      ExtendKeepsCut(g, front, log[|log| - 1]);
      Extend(g, log[|log| - 1])
  }

  lemma FlattenSnoc(groups: seq<seq<Message>>, last: seq<Message>)
    ensures Flatten(groups + [last]) == Flatten(groups) + last
  {
    assert (groups + [last])[..|groups|] == groups;
  }

  /** In a cut of a non-empty log, the last block ends with the last message. */
  lemma CutEndsWithLast(groups: seq<seq<Message>>, log: seq<Message>)
    requires CutOf(groups, log) && log != []
    ensures groups[|groups| - 1] != [] && groups[|groups| - 1][|groups[|groups| - 1]| - 1] == log[|log| - 1]
  {
    var front := groups[..|groups| - 1];
    assert groups == front + [groups[|groups| - 1]];
    FlattenSnoc(front, groups[|groups| - 1]);
  }

  lemma ExtendCohesive(groups: seq<seq<Message>>, m: Message)
    requires NonEmpty(groups) && Cohesive(groups)
    ensures Cohesive(Extend(groups, m))
  {
    var r := Extend(groups, m);
    if groups == [] || !Continues(groups[|groups| - 1][|groups[|groups| - 1]| - 1], m) {
      forall j, k | 0 <= j < |r| && 0 < k < |r[j]|
        ensures Continues(r[j][k - 1], r[j][k])
      {
        assert j < |groups| && r[j] == groups[j];
      }
    } else {
      var last := groups[|groups| - 1];
      forall j, k | 0 <= j < |r| && 0 < k < |r[j]|
        ensures Continues(r[j][k - 1], r[j][k])
      {
        if j < |groups| - 1 {
          assert r[j] == groups[j];
        } else if k < |last| {
          assert r[j][k - 1] == last[k - 1] && r[j][k] == last[k];
        } else {
          assert r[j][k - 1] == last[|last| - 1];
        }
      }
    }
  }

  lemma ExtendSeparated(groups: seq<seq<Message>>, m: Message)
    requires NonEmpty(groups) && Separated(groups)
    ensures Separated(Extend(groups, m))
  {
    var r := Extend(groups, m);
    if groups == [] || !Continues(groups[|groups| - 1][|groups[|groups| - 1]| - 1], m) {
      forall j | 0 < j < |r| && r[j - 1] != [] && r[j] != []
        ensures !Continues(r[j - 1][|r[j - 1]| - 1], r[j][0])
      {
        assert r[j - 1] == groups[j - 1];
      }
    } else {
      forall j | 0 < j < |r| && r[j - 1] != [] && r[j] != []
        ensures !Continues(r[j - 1][|r[j - 1]| - 1], r[j][0])
      {
        assert r[j - 1] == groups[j - 1] && r[j][0] == groups[j][0];
      }
    }
  }

  lemma ExtendFlatten(groups: seq<seq<Message>>, m: Message)
    requires NonEmpty(groups)
    ensures Flatten(Extend(groups, m)) == Flatten(groups) + [m]
  {
    if groups == [] || !Continues(groups[|groups| - 1][|groups[|groups| - 1]| - 1], m) {
      FlattenSnoc(groups, [m]);
    } else {
      var front := groups[..|groups| - 1];
      var last := groups[|groups| - 1];
      assert groups == front + [last];
      FlattenSnoc(front, last);
      FlattenSnoc(front, last + [m]);
    }
  }

  lemma ExtendKeepsCut(groups: seq<seq<Message>>, log: seq<Message>, m: Message)
    requires CutOf(groups, log)
    ensures CutOf(Extend(groups, m), log + [m])
  {
    var r := Extend(groups, m);
    ExtendFlatten(groups, m);
    ExtendCohesive(groups, m);
    ExtendSeparated(groups, m);
    assert NonEmpty(r) by {
      forall j | 0 <= j < |r|
        ensures r[j] != []
      {
        if j < |groups| - 1 {
          assert r[j] == groups[j];
        }
      }
    }
  }

  // ---------------------------------------------------------------------------
  // Lemmas

  /** The block rule and the cut rule agree: a message starts a block exactly
      when it does not continue the message before it. */
  lemma StartsGroupIffBreak(log: seq<Message>, i: int)
    requires 0 < i < |log|
    ensures StartsGroup(log, i) <==> !Continues(log[i - 1], log[i])
  {
  }

  /** A reply by the same author exactly five minutes later stays in the
      block; one millisecond more starts a new one. */
  lemma GapThreshold(prev: Message, m: Message)
    requires prev.user == m.user
    ensures m.timestamp == prev.timestamp + GroupGap ==> !StartsGroup([prev, m], 1)
    ensures m.timestamp == prev.timestamp + GroupGap + 1 ==> StartsGroup([prev, m], 1)
  {
  }

  /** A message sent earlier than the one before it (clocks of different
      clients disagree) never starts a block on time grounds alone. */
  lemma OutOfOrderStaysGrouped(prev: Message, m: Message)
    requires prev.user == m.user && m.timestamp <= prev.timestamp
    ensures !StartsGroup([prev, m], 1)
  {
  }

  /** The date marker and the author block are independent: a block can run
      across midnight, so a message can open a new day without opening a new
      block. */
  lemma DayBreakInsideGroup(a: Message, b: Message, dayOf: int -> string)
    requires a.user == b.user && b.timestamp == a.timestamp + 1
    requires dayOf(a.timestamp) != dayOf(b.timestamp)
    ensures StartsDay([a, b], 1, dayOf) && !StartsGroup([a, b], 1)
  {
  }

  /** Every message of a one-author burst with small gaps sits in one block. */
  lemma {:induction false} BurstIsOneGroup(log: seq<Message>)
    requires log != []
    requires forall i :: 0 < i < |log| ==> Continues(log[i - 1], log[i])
    ensures Groups(log) == [log]
    decreases |log|
  {
    var front := log[..|log| - 1];
    var m := log[|log| - 1];
    assert log == front + [m];
    if front != [] {
      assert forall i :: 0 <= i < |front| ==> front[i] == log[i];
      BurstIsOneGroup(front);
      assert Continues(front[|front| - 1], m);
      assert Groups(log) == Extend([front], m);
    }
  }

  /** Leading blocks of a cut keep its shape. */
  lemma TakeKeepsShape(groups: seq<seq<Message>>, n: nat)
    requires n <= |groups|
    requires NonEmpty(groups) && Cohesive(groups) && Separated(groups)
    ensures NonEmpty(groups[..n]) && Cohesive(groups[..n]) && Separated(groups[..n])
  {
    var init := groups[..n];
    assert forall j :: 0 <= j < n ==> init[j] == groups[j];
  }

  /** A non-empty cut flattens to a non-empty log. */
  lemma FlattenNonEmpty(groups: seq<seq<Message>>)
    requires NonEmpty(groups) && groups != []
    ensures Flatten(groups) != []
  {
  }

  /** Removing the last message from a cut whose last block holds only that
      message leaves a cut of the rest of the log. */
  lemma DropSingletonBlock(groups: seq<seq<Message>>, log: seq<Message>)
    requires CutOf(groups, log) && log != []
    requires |groups[|groups| - 1]| == 1
    ensures CutOf(groups[..|groups| - 1], log[..|log| - 1])
  {
    var init := groups[..|groups| - 1];
    var last := groups[|groups| - 1];
    assert groups == init + [last];
    FlattenSnoc(init, last);
    assert log[..|log| - 1] == Flatten(init);
    TakeKeepsShape(groups, |groups| - 1);
    if init != [] {
      FlattenNonEmpty(init);
    }
  }

  /** Dropping the last message of a last block that holds more than it
      keeps the blocks' shape. */
  lemma ShortenKeepsShape(groups: seq<seq<Message>>)
    requires NonEmpty(groups) && Cohesive(groups) && Separated(groups)
    requires groups != [] && |groups[|groups| - 1]| > 1
    ensures var last := groups[|groups| - 1];
            var g := groups[..|groups| - 1] + [last[..|last| - 1]];
            NonEmpty(g) && Cohesive(g) && Separated(g)
  {
    var init := groups[..|groups| - 1];
    var last := groups[|groups| - 1];
    var g := init + [last[..|last| - 1]];
    assert forall j :: 0 <= j < |init| ==> g[j] == groups[j];
    assert Cohesive(g) by {
      forall j, k | 0 <= j < |g| && 0 < k < |g[j]|
        ensures Continues(g[j][k - 1], g[j][k])
      {
        if j == |init| {
          assert g[j][k - 1] == last[k - 1] && g[j][k] == last[k];
        }
      }
    }
    assert Separated(g) by {
      forall j | 0 < j < |g| && g[j - 1] != [] && g[j] != []
        ensures !Continues(g[j - 1][|g[j - 1]| - 1], g[j][0])
      {
        assert g[j][0] == groups[j][0];
      }
    }
  }

  /** Removing the last message from a cut whose last block holds more than
      that message leaves a cut of the rest of the log. */
  lemma ShortenLastBlock(groups: seq<seq<Message>>, log: seq<Message>)
    requires CutOf(groups, log) && log != []
    requires |groups[|groups| - 1]| > 1
    ensures var last := groups[|groups| - 1];
            CutOf(groups[..|groups| - 1] + [last[..|last| - 1]], log[..|log| - 1])
  {
    var init := groups[..|groups| - 1];
    var last := groups[|groups| - 1];
    var shorter := last[..|last| - 1];
    assert groups == init + [last];
    FlattenSnoc(init, last);
    FlattenSnoc(init, shorter);
    assert last == shorter + [last[|last| - 1]];
    assert log[..|log| - 1] == Flatten(init + [shorter]);
    ShortenKeepsShape(groups);
  }

  /** A message that does not continue the one before it opens a block of
      its own. */
  lemma GroupsSnocBreak(front: seq<Message>, m: Message)
    requires front != [] ==> !Continues(front[|front| - 1], m)
    ensures Groups(front + [m]) == Groups(front) + [[m]]
  {
    var g := Groups(front);
    assert (front + [m])[..|front|] == front;
    if front != [] {
      CutEndsWithLast(g, front);
    }
  }

  /** A message that continues the one before it joins the last block. */
  lemma GroupsSnocJoin(front: seq<Message>, m: Message)
    requires front != [] && Continues(front[|front| - 1], m)
    ensures var g := Groups(front);
            g != [] && Groups(front + [m]) == g[..|g| - 1] + [g[|g| - 1] + [m]]
  {
    var g := Groups(front);
    assert (front + [m])[..|front|] == front;
    CutEndsWithLast(g, front);
  }

  /** A cut whose last block is the last message alone: that message does
      not continue the one before it. */
  lemma SingletonShape(groups: seq<seq<Message>>, log: seq<Message>)
    requires CutOf(groups, log) && log != [] && |groups[|groups| - 1]| == 1
    ensures var front := log[..|log| - 1];
            var m := log[|log| - 1];
            && groups == groups[..|groups| - 1] + [[m]]
            && (front != [] ==> !Continues(front[|front| - 1], m))
  {
    var init := groups[..|groups| - 1];
    var front := log[..|log| - 1];
    CutEndsWithLast(groups, log);
    DropSingletonBlock(groups, log);
    assert groups[|groups| - 1] == [log[|log| - 1]];
    assert groups == init + [groups[|groups| - 1]];
    if front != [] {
      CutEndsWithLast(init, front);
      var p := groups[|groups| - 2];
      assert p == init[|init| - 1];
      assert !Continues(p[|p| - 1], groups[|groups| - 1][0]);
    }
  }

  /** A cut whose last block holds more than the last message: that message
      continues the one before it. */
  lemma JoinShape(groups: seq<seq<Message>>, log: seq<Message>)
    requires CutOf(groups, log) && log != [] && |groups[|groups| - 1]| > 1
    ensures var front := log[..|log| - 1];
            var m := log[|log| - 1];
            var last := groups[|groups| - 1];
            var g := groups[..|groups| - 1] + [last[..|last| - 1]];
            && front != [] && Continues(front[|front| - 1], m)
            && groups == g[..|g| - 1] + [g[|g| - 1] + [m]]
  {
    var init := groups[..|groups| - 1];
    var last := groups[|groups| - 1];
    var shorter := last[..|last| - 1];
    var front := log[..|log| - 1];
    CutEndsWithLast(groups, log);
    ShortenLastBlock(groups, log);
    CutEndsWithLast(init + [shorter], front);
    assert Continues(last[|last| - 2], last[|last| - 1]);
    assert (init + [shorter])[..|groups| - 1] == init;
    assert shorter + [log[|log| - 1]] == last;
    assert groups == init + [last];
  }

  /** The blocks on screen are the only way to cut the log into blocks that
      are each one author's burst and that could not be merged. */
  lemma {:induction false} CutIsUnique(groups: seq<seq<Message>>, log: seq<Message>)
    requires CutOf(groups, log)
    ensures groups == Groups(log)
    decreases |log|
  {
    if log != [] {
      var last := groups[|groups| - 1];
      var front := log[..|log| - 1];
      var m := log[|log| - 1];
      assert log == front + [m];
      if |last| == 1 {
        DropSingletonBlock(groups, log);
        CutIsUnique(groups[..|groups| - 1], front);
        SingletonShape(groups, log);
        GroupsSnocBreak(front, m);
      } else {
        ShortenLastBlock(groups, log);
        CutIsUnique(groups[..|groups| - 1] + [last[..|last| - 1]], front);
        JoinShape(groups, log);
        GroupsSnocJoin(front, m);
      }
    }
  }
}
