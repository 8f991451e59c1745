/** The entry store and the scorer: named entries with win and game counters,
    lookup by name, applying and reversing one vote, and the `{name, wins}`
    projection that is exported at the end of a session. */
module Scoring {

  datatype Option<T> = None | Some(value: T)

  /** One entry of the roster: its name and its two counters. */
  datatype Entry = Entry(name: string, wins: int, games: int)

  /** One element of the exported results: the entry's name and wins only. */
  datatype Standing = Standing(name: string, wins: int)

  /** The names of the entries, in roster order. */
  function Names(s: seq<Entry>): (r: seq<string>)
    ensures |r| == |s|
  {
    seq(|s|, i requires 0 <= i < |s| => s[i].name)
  }

  /** Some entry carries the name. */
  predicate HasName(s: seq<Entry>, name: string)
  {
    name in Names(s)
  }

  /** Lookup by name as `items.find` does it: the first entry carrying the
      name, or nothing when no entry does. */
  function Find(s: seq<Entry>, name: string): (r: Option<nat>)
    ensures r.Some? <==> HasName(s, name)
    ensures r.Some? ==> r.value < |s| && s[r.value].name == name
    ensures r.Some? ==> forall j :: 0 <= j < r.value ==> s[j].name != name
  {
    if s == [] then None
    else if s[0].name == name then assert Names(s)[0] == name; Some(0)
    else
      assert Names(s) == [s[0].name] + Names(s[1..]);
      match Find(s[1..], name)
        case None => None
        case Some(k) => Some(k + 1)
  }

  /** The index of an entry that is known to be present. */
  function IndexOf(s: seq<Entry>, name: string): (i: nat)
    requires HasName(s, name)
    ensures i < |s| && s[i].name == name
    ensures forall j :: 0 <= j < i ==> s[j].name != name
  {
    Find(s, name).value
  }

  /** Lookup depends on the names only, not on the counters. */
  lemma {:induction false} FindDependsOnNames(s: seq<Entry>, t: seq<Entry>, name: string)
    requires Names(s) == Names(t)
    ensures Find(s, name) == Find(t, name)
  {
    if s != [] {
      assert s[0].name == Names(s)[0] == Names(t)[0] == t[0].name;
      assert Names(s[1..]) == Names(s)[1..] == Names(t)[1..] == Names(t[1..]);
      FindDependsOnNames(s[1..], t[1..], name);
    }
  }

  /** Every entry's counters are sane: no negative wins and never more wins
      than games. */
  predicate CountersOk(s: seq<Entry>)
  {
    forall i :: 0 <= i < |s| ==> 0 <= s[i].wins <= s[i].games
  }

  /** Total number of games over all entries. */
  function SumGames(s: seq<Entry>): int
  {
    if s == [] then 0 else s[0].games + SumGames(s[1..])
  }

  /** Total number of wins over all entries. */
  function SumWins(s: seq<Entry>): int
  {
    if s == [] then 0 else s[0].wins + SumWins(s[1..])
  }

  /** Replacing one entry changes each total by exactly that entry's change. */
  lemma {:induction false} SumsUpdate(s: seq<Entry>, i: nat, e: Entry)
    requires i < |s|
    ensures SumGames(s[i := e]) == SumGames(s) - s[i].games + e.games
    ensures SumWins(s[i := e]) == SumWins(s) - s[i].wins + e.wins
  {
    if i > 0 {
      assert s[i := e][1..] == s[1..][i - 1 := e];
      SumsUpdate(s[1..], i - 1, e);
    } else {
      assert s[i := e][1..] == s[1..];
    }
  }

  /** With every counter at zero both totals are zero. */
  lemma {:induction false} SumsOfFresh(s: seq<Entry>)
    requires forall i :: 0 <= i < |s| ==> s[i].wins == 0 && s[i].games == 0
    ensures SumGames(s) == 0 && SumWins(s) == 0
  {
    if s != [] {
      SumsOfFresh(s[1..]);
    }
  }

  /** The scorer's effect of one vote, with the winner at index `w` and the
      loser at index `l`, applied in the order the source applies it: the
      winner's wins and games first, then the loser's games. */
  function ApplyVote(s: seq<Entry>, w: nat, l: nat): (r: seq<Entry>)
    requires w < |s| && l < |s|
    ensures |r| == |s|
  {
    var s1 := s[w := s[w].(wins := s[w].wins + 1, games := s[w].games + 1)];
    s1[l := s1[l].(games := s1[l].games + 1)]
  }

  /** A vote changes counters only, never a name. */
  lemma ApplyVoteKeepsNames(s: seq<Entry>, w: nat, l: nat)
    requires w < |s| && l < |s|
    ensures Names(ApplyVote(s, w, l)) == Names(s)
  {
  }

  /** The undo of one vote: the winner's wins and games first, then the
      loser's games, each decremented. */
  function ReverseVote(s: seq<Entry>, w: nat, l: nat): (r: seq<Entry>)
    requires w < |s| && l < |s|
    ensures |r| == |s|
  {
    var s1 := s[w := s[w].(wins := s[w].wins - 1, games := s[w].games - 1)];
    s1[l := s1[l].(games := s1[l].games - 1)]
  }

  /** A vote between two different entries: the winner gains one win and one
      game, the loser one game, and nothing else changes. */
  lemma ApplyVoteEffect(s: seq<Entry>, w: nat, l: nat)
    requires w < |s| && l < |s| && w != l
    ensures ApplyVote(s, w, l)[w] == Entry(s[w].name, s[w].wins + 1, s[w].games + 1)
    ensures ApplyVote(s, w, l)[l] == Entry(s[l].name, s[l].wins, s[l].games + 1)
    ensures forall k :: 0 <= k < |s| && k != w && k != l ==> ApplyVote(s, w, l)[k] == s[k]
  {
  }

  /** Undoing a vote restores every counter exactly. */
  lemma ReverseUndoesApply(s: seq<Entry>, w: nat, l: nat)
    requires w < |s| && l < |s|
    ensures ReverseVote(ApplyVote(s, w, l), w, l) == s
  {
  }

  /** A vote keeps the counters sane, adds two games and one win in total. */
  lemma {:induction false} ApplyVoteTotals(s: seq<Entry>, w: nat, l: nat)
    requires w < |s| && l < |s|
    ensures CountersOk(s) ==> CountersOk(ApplyVote(s, w, l))
    ensures SumGames(ApplyVote(s, w, l)) == SumGames(s) + 2
    ensures SumWins(ApplyVote(s, w, l)) == SumWins(s) + 1
  {
    var s1 := s[w := s[w].(wins := s[w].wins + 1, games := s[w].games + 1)];
    SumsUpdate(s, w, s1[w]);
    SumsUpdate(s1, l, s1[l].(games := s1[l].games + 1));
  }

  /** The counters agree with `votes` votes: sane counters, two games and one
      win per vote. */
  predicate Tally(s: seq<Entry>, votes: nat)
  {
    CountersOk(s) && SumGames(s) == 2 * votes && SumWins(s) == votes
  }

  /** The scorer's three updates, in source order: the winner's wins, the
      winner's games, the loser's games. */
  method Score(s: seq<Entry>, w: nat, l: nat) returns (r: seq<Entry>)
    requires w < |s| && l < |s|
    ensures r == ApplyVote(s, w, l)
  {
    r := s;
    r := r[w := r[w].(wins := r[w].wins + 1)];
    r := r[w := r[w].(games := r[w].games + 1)];
    r := r[l := r[l].(games := r[l].games + 1)];
  }

  /** The three updates of the back button, each a decrement. */
  method Unscore(s: seq<Entry>, w: nat, l: nat) returns (r: seq<Entry>)
    requires w < |s| && l < |s|
    ensures r == ReverseVote(s, w, l)
  {
    r := s;
    r := r[w := r[w].(wins := r[w].wins - 1)];
    r := r[w := r[w].(games := r[w].games - 1)];
    r := r[l := r[l].(games := r[l].games - 1)];
  }

  /** A vote between two named entries keeps the names and brings the tally
      one vote further. */
  lemma VoteStep(s: seq<Entry>, votes: nat, winnerName: string, loserName: string)
    requires HasName(s, winnerName) && HasName(s, loserName) && Tally(s, votes)
    ensures var r := ApplyVote(s, IndexOf(s, winnerName), IndexOf(s, loserName));
            Names(r) == Names(s) && Tally(r, votes + 1)
  {
    ApplyVoteKeepsNames(s, IndexOf(s, winnerName), IndexOf(s, loserName));
    ApplyVoteTotals(s, IndexOf(s, winnerName), IndexOf(s, loserName));
  }

  /** After a vote both names are still found at the same places, and
      reversing the vote there restores the roster exactly. */
  lemma UndoStep(s: seq<Entry>, winnerName: string, loserName: string)
    requires HasName(s, winnerName) && HasName(s, loserName)
    ensures var w, l := IndexOf(s, winnerName), IndexOf(s, loserName);
            var r := ApplyVote(s, w, l);
            && HasName(r, winnerName) && HasName(r, loserName)
            && IndexOf(r, winnerName) == w && IndexOf(r, loserName) == l
            && ReverseVote(r, w, l) == s
  {
    var w, l := IndexOf(s, winnerName), IndexOf(s, loserName);
    ApplyVoteKeepsNames(s, w, l);
    FindDependsOnNames(ApplyVote(s, w, l), s, winnerName);
    FindDependsOnNames(ApplyVote(s, w, l), s, loserName);
    ReverseUndoesApply(s, w, l);
  }

  /** The exported results: each entry's name and wins, in roster order, with
      the game counter left out. */
  function EncodeResults(s: seq<Entry>): (r: seq<Standing>)
    ensures |r| == |s|
    ensures forall i :: 0 <= i < |s| ==> r[i] == Standing(s[i].name, s[i].wins)
  {
    if s == [] then [] else [Standing(s[0].name, s[0].wins)] + EncodeResults(s[1..])
  }

  function SumStandingWins(r: seq<Standing>): int
  {
    if r == [] then 0 else r[0].wins + SumStandingWins(r[1..])
  }

  /** The exported results carry every win of the roster: their total equals
      the roster's total wins. */
  lemma {:induction false} ResultsKeepWins(s: seq<Entry>)
    ensures SumStandingWins(EncodeResults(s)) == SumWins(s)
  {
    if s != [] {
      ResultsKeepWins(s[1..]);
      assert EncodeResults(s)[1..] == EncodeResults(s[1..]);
    }
  }
}
