/** The voting session: the roster with its counters, the matchup sequence,
    the cursor into it and the single undo slot, together with the operations
    that start a session, record a vote and take the last vote back. */
module Voting {
  import opened Scoring
  import opened Pairing
  import opened Shuffling

  /** What the session asks the display to show after an operation. */
  datatype Notice =
    | PleaseSelectUser
      /** the matchup at the cursor, with the number completed so far */
    | ShowMatchup(completed: nat, total: nat, matchup: Matchup)
      /** the cursor points past the last matchup (an empty sequence) */
    | NoMatchup
    | AllComplete

  class Session {
    var items: seq<Entry>
    var matchups: seq<Matchup>
    var currentMatchupIndex: nat
    var previousMatchupIndex: Option<nat>
    var previousWinner: Option<string>
    var previousLoser: Option<string>
    /** The roster's names, which no operation changes. */
    ghost var names: seq<string>
    /** The roster as it was before the vote the undo slot records. */
    ghost var beforeLastVote: seq<Entry>

    /** The undo slot records the vote that led to the current state: the
        roster before it kept the tally of the votes before it, and applying
        the recorded winner and loser to it gives the current roster. */
    ghost predicate UndoSlotValid()
      reads this`items, this`names, this`currentMatchupIndex, this`beforeLastVote
      reads this`previousMatchupIndex, this`previousWinner, this`previousLoser
    {
      && previousMatchupIndex.Some? && previousWinner.Some? && previousLoser.Some?
      && previousMatchupIndex.value + 1 == currentMatchupIndex
      && Names(beforeLastVote) == names
      && previousWinner.value in names && previousLoser.value in names
      && Tally(beforeLastVote, previousMatchupIndex.value)
      && items == ApplyVote(beforeLastVote,
                            IndexOf(beforeLastVote, previousWinner.value),
                            IndexOf(beforeLastVote, previousLoser.value))
    }

    /** The scores agree with the votes in effect: sane counters, one win and
        two games per vote in effect (the votes in effect being exactly the
        matchups before the cursor), and a meaningful undo slot when it is
        set. */
    ghost predicate ScoresValid()
      reads this`items, this`names, this`currentMatchupIndex, this`beforeLastVote
      reads this`previousMatchupIndex, this`previousWinner, this`previousLoser
    {
      && Names(items) == names
      && Tally(items, currentMatchupIndex)
      && (previousMatchupIndex.Some? ==> UndoSlotValid())
    }

    /** The session invariant: the scores agree with the votes, the cursor
        stays within the sequence, and every matchup names entries of the
        roster. */
    ghost predicate Valid()
      reads this
    {
      && ScoresValid()
      && currentMatchupIndex <= |matchups|
      && (forall m :: m in matchups ==> m.item1 in names && m.item2 in names)
    }

    /** What `displayMatchup(matchups[currentMatchupIndex])` shows. */
    function Display(): (n: Notice)
      reads this
      ensures n.ShowMatchup? <==> currentMatchupIndex < |matchups|
      ensures n.ShowMatchup? ==>
                n.matchup == matchups[currentMatchupIndex]
                && n.completed == currentMatchupIndex && n.total == |matchups|
    {
      if currentMatchupIndex < |matchups|
      then ShowMatchup(currentMatchupIndex, |matchups|, matchups[currentMatchupIndex])
      else NoMatchup
    }

    /** A session over the given names, every counter at zero, no matchups,
        the cursor at 0 and the undo slot empty. */
    constructor (names: seq<string>)
      ensures Valid()
      ensures Names(items) == names && this.names == names
      ensures forall i :: 0 <= i < |items| ==> items[i].wins == 0 && items[i].games == 0
      ensures matchups == [] && currentMatchupIndex == 0
      ensures previousMatchupIndex == None && previousWinner == None && previousLoser == None
    {
      items := seq(|names|, i requires 0 <= i < |names| => Entry(names[i], 0, 0));
      matchups := [];
      currentMatchupIndex := 0;
      previousMatchupIndex, previousWinner, previousLoser := None, None, None;
      beforeLastVote := [];
      this.names := names;
      new;
      assert forall i :: 0 <= i < |items| ==> Names(items)[i] == names[i];
      SumsOfFresh(items);
    }

    /** The start button: with a user selected, the generator appends every
        pair of roster names to the matchups, the pairs involving that user
        are dropped, the rest are shuffled by the draws and the first one is
        shown; with no user selected, nothing changes and the user is asked to
        select one. Starting happens before any vote. */
    method Start(selectedUser: string, draws: seq<nat>) returns (notice: Notice)
      requires Valid() && currentMatchupIndex == 0
      requires selectedUser != "" ==>
                 DrawsFit(draws, |FilterMatchups(matchups + AllPairs(names), selectedUser)|)
      modifies this`matchups
      ensures Valid()
      ensures selectedUser == "" ==> matchups == old(matchups) && notice == PleaseSelectUser
      ensures selectedUser != "" ==>
                && matchups == Shuffled(FilterMatchups(old(matchups) + AllPairs(names), selectedUser), draws)
                && multiset(matchups) == multiset(FilterMatchups(old(matchups) + AllPairs(names), selectedUser))
                && notice == Display()
    {
      if selectedUser != "" {
        var generated := GenerateInitialMatchups(matchups, items);
        assert generated == matchups + AllPairs(names);
        var filtered := FilterMatchups(generated, selectedUser);
        var shuffled := ShuffleMatchups(filtered, draws);
        StartedMatchupsNamed(matchups, names, selectedUser, draws);
        matchups := shuffled;
        notice := Display();
      } else {
        notice := PleaseSelectUser;
      }
    }

    /** Records `winnerName` beating `loserName`: the undo slot takes the
        current cursor and both names, the scorer applies the vote, the cursor
        advances, and either the next matchup or the end of voting is shown. */
    method HandleVote(winnerName: string, loserName: string) returns (notice: Notice)
      requires Valid() && currentMatchupIndex < |matchups|
      requires winnerName in names && loserName in names
      modifies this
      ensures Valid() && matchups == old(matchups)
      ensures items == ApplyVote(old(items), IndexOf(old(items), winnerName),
                                     IndexOf(old(items), loserName))
      ensures beforeLastVote == old(items)
      ensures currentMatchupIndex == old(currentMatchupIndex) + 1 <= |matchups|
      ensures previousMatchupIndex == Some(old(currentMatchupIndex))
      ensures previousWinner == Some(winnerName) && previousLoser == Some(loserName)
      ensures notice == if currentMatchupIndex < |matchups| then Display() else AllComplete
      ensures notice == AllComplete <==> currentMatchupIndex == |matchups|
    {
      var winner := IndexOf(items, winnerName);
      var loser := IndexOf(items, loserName);
      VoteStep(items, currentMatchupIndex, winnerName, loserName);
      var scored := Score(items, winner, loser);

      previousMatchupIndex, previousWinner, previousLoser :=
        Some(currentMatchupIndex), Some(winnerName), Some(loserName);
      beforeLastVote, items := items, scored;
      currentMatchupIndex := currentMatchupIndex + 1;
      if currentMatchupIndex < |matchups| {
        notice := Display();
      } else {
        notice := AllComplete;
      }
    }

    /** Takes back the last vote when the undo slot is set: the scorer
        reverses it, the cursor returns to the recorded index and the slot is
        cleared (its names stay, as in the source); otherwise nothing
        changes. */
    method GoBack() returns (notice: Option<Notice>)
      requires Valid()
      modifies this
      ensures Valid() && matchups == old(matchups)
      ensures previousMatchupIndex == None
      ensures previousWinner == old(previousWinner) && previousLoser == old(previousLoser)
      ensures old(previousMatchupIndex).None? ==>
                items == old(items) && currentMatchupIndex == old(currentMatchupIndex)
                && notice == None
      ensures old(previousMatchupIndex).Some? ==>
                && items == old(beforeLastVote)
                && items == ReverseVote(old(items),
                                            IndexOf(old(items), old(previousWinner).value),
                                            IndexOf(old(items), old(previousLoser).value))
                && currentMatchupIndex == old(currentMatchupIndex) - 1
                && currentMatchupIndex < |matchups|
                && notice == Some(Display())
    {
      if previousMatchupIndex.Some? {
        UndoStep(beforeLastVote, previousWinner.value, previousLoser.value);
        var winner := IndexOf(items, previousWinner.value);
        var loser := IndexOf(items, previousLoser.value);
        items := Unscore(items, winner, loser);

        currentMatchupIndex := previousMatchupIndex.value;
        previousMatchupIndex := None;
        notice := Some(Display());
      } else {
        notice := None;
      }
    }

    /** The button for the first name of the current matchup: it wins. */
    method VoteForItem1() returns (notice: Notice)
      requires Valid() && currentMatchupIndex < |matchups|
      modifies this
      ensures Valid() && matchups == old(matchups)
      ensures var m := old(matchups[currentMatchupIndex]);
              && items == ApplyVote(old(items), IndexOf(old(items), m.item1),
                                        IndexOf(old(items), m.item2))
              && previousWinner == Some(m.item1) && previousLoser == Some(m.item2)
      ensures currentMatchupIndex == old(currentMatchupIndex) + 1
      ensures previousMatchupIndex == Some(old(currentMatchupIndex))
      ensures notice == if currentMatchupIndex < |matchups| then Display() else AllComplete
    {
      var currentMatchup := matchups[currentMatchupIndex];
      notice := HandleVote(currentMatchup.item1, currentMatchup.item2);
    }

    /** The button for the second name of the current matchup: it wins. */
    method VoteForItem2() returns (notice: Notice)
      requires Valid() && currentMatchupIndex < |matchups|
      modifies this
      ensures Valid() && matchups == old(matchups)
      ensures var m := old(matchups[currentMatchupIndex]);
              && items == ApplyVote(old(items), IndexOf(old(items), m.item2),
                                        IndexOf(old(items), m.item1))
              && previousWinner == Some(m.item2) && previousLoser == Some(m.item1)
      ensures currentMatchupIndex == old(currentMatchupIndex) + 1
      ensures previousMatchupIndex == Some(old(currentMatchupIndex))
      ensures notice == if currentMatchupIndex < |matchups| then Display() else AllComplete
    {
      var currentMatchup := matchups[currentMatchupIndex];
      notice := HandleVote(currentMatchup.item2, currentMatchup.item1);
    }

    /** The exported `{name, wins}` list of the current roster. */
    function Results(): (r: seq<Standing>)
      reads this
      requires Valid()
      ensures r == EncodeResults(items)
      ensures SumStandingWins(r) == currentMatchupIndex
    {
      ResultsKeepWins(items);
      EncodeResults(items)
    }
  }

  /** Appends every pair of the entries' names, `i < j` in roster order, to
      `matchups` (the module-level list the source pushes onto) and returns
      the extended list. */
  method GenerateInitialMatchups(matchups: seq<Matchup>, items: seq<Entry>) returns (r: seq<Matchup>)
    ensures r == matchups + AllPairs(Names(items))
  {
    ghost var names := Names(items);
    r := matchups;
    var i := 0;
    assert names[i..] == names;
    while i < |items|
      invariant 0 <= i <= |items|
      invariant r + AllPairs(names[i..]) == matchups + AllPairs(names)
    {
      assert names[i..][0] == names[i] && names[i..][1..] == names[i + 1..];
      var j := i + 1;
      while j < |items|
        invariant i + 1 <= j <= |items|
        invariant r + Row(names[i], names[j..]) + AllPairs(names[i + 1..])
               == matchups + AllPairs(names)
      {
        assert items[i].name == names[i] && items[j].name == names[j];
        PairsStep(r, names, i, j);
        r := r + [Matchup(items[i].name, items[j].name)];
        j := j + 1;
      }
      assert Row(names[i], names[j..]) == [];
      assert r + Row(names[i], names[j..]) == r;
      i := i + 1;
    }
    assert AllPairs(names[i..]) == [];
    assert r + AllPairs(names[i..]) == r;
  }

  /** Runs the in-place shuffle over an array holding the matchups and
      returns the array's final contents. */
  method ShuffleMatchups(ms: seq<Matchup>, draws: seq<nat>) returns (r: seq<Matchup>)
    requires DrawsFit(draws, |ms|)
    ensures r == Shuffled(ms, draws)
    ensures multiset(r) == multiset(ms)
  {
    var a := new Matchup[|ms|](i requires 0 <= i < |ms| => ms[i]);
    assert a[..] == ms;
    Shuffle(a, draws);
    r := a[..];
  }

  /** Every matchup of a started session names two entries of the roster,
      given that every matchup already there does. */
  lemma StartedMatchupsNamed(prior: seq<Matchup>, names: seq<string>, selectedUser: string, draws: seq<nat>)
    requires forall m :: m in prior ==> m.item1 in names && m.item2 in names
    requires DrawsFit(draws, |FilterMatchups(prior + AllPairs(names), selectedUser)|)
    ensures forall m :: m in Shuffled(FilterMatchups(prior + AllPairs(names), selectedUser), draws) ==>
              m.item1 in names && m.item2 in names
  {
    var filtered := FilterMatchups(prior + AllPairs(names), selectedUser);
    ShuffleFromPermutes(filtered, draws, |filtered|);
    forall m | m in Shuffled(filtered, draws) ensures m.item1 in names && m.item2 in names {
      assert m in multiset(Shuffled(filtered, draws));
      assert m in filtered;
      if m !in prior {
        AllPairsSound(names, m);
      }
    }
  }

  /** One step of the generator's inner loop: emitting `(names[i], names[j])`
      moves it from the pairs still to come to the pairs emitted. */
  lemma PairsStep(done: seq<Matchup>, names: seq<string>, i: nat, j: nat)
    requires i < j < |names|
    ensures done + Row(names[i], names[j..]) + AllPairs(names[i + 1..])
         == (done + [Matchup(names[i], names[j])]) + Row(names[i], names[j + 1..]) + AllPairs(names[i + 1..])
  {
  }

  /** A vote followed by two presses of the back button: the first restores
      every counter and the cursor and clears the slot, the second changes
      nothing. */
  method VoteThenUndoTwice(s: Session, winnerName: string, loserName: string)
    requires s.Valid() && s.currentMatchupIndex < |s.matchups|
    requires winnerName in s.names && loserName in s.names
    modifies s
    ensures s.Valid()
    ensures s.items == old(s.items) && s.matchups == old(s.matchups)
    ensures s.currentMatchupIndex == old(s.currentMatchupIndex)
    ensures s.previousMatchupIndex == None
  {
    var _ := s.HandleVote(winnerName, loserName);
    var n1 := s.GoBack();
    assert n1.Some?;
    var n2 := s.GoBack();
    assert n2 == None;
  }

  /** Two votes and one press of the back button: the undo slot holds the
      second vote only, so the roster returns to its state after the first
      vote, which stays in effect, and the cursor points just past it. */
  method TwoVotesThenUndo(s: Session, w1: string, l1: string, w2: string, l2: string)
    requires s.Valid() && s.currentMatchupIndex + 1 < |s.matchups|
    requires w1 in s.names && l1 in s.names && w2 in s.names && l2 in s.names
    modifies s
    ensures s.Valid()
    ensures s.items == ApplyVote(old(s.items), IndexOf(old(s.items), w1), IndexOf(old(s.items), l1))
    ensures s.currentMatchupIndex == old(s.currentMatchupIndex) + 1
    ensures s.previousMatchupIndex == None
  {
    var _ := s.HandleVote(w1, l1);
    var _ := s.HandleVote(w2, l2);
    var _ := s.GoBack();
  }

  /** Three entries A, B, C with A excluded leave the single matchup B–C. */
  lemma ExcludeFirstOfThree()
    ensures FilterMatchups(AllPairs(["A", "B", "C"]), "A") == [Matchup("B", "C")]
  {
    FilterAllPairs(["A", "B", "C"], "A");
    assert Without(["A", "B", "C"], "A") == ["B", "C"];
  }
}
