/** The tournament list's filter: three option filters, a name search and the
    open-status rule. */
module Tournaments {
  import opened Text
  import Lists

  datatype Tournament = Tournament(
    id: string, name: string, gameType: string, mode: string, teamSize: string,
    entryFee: int, prizePool: int, slotsTotal: nat, slotsFilled: nat, status: string)

  /** The three option filters; "All" switches a filter off. */
  datatype Filters = Filters(mode: string, gameType: string, size: string)

  const NoFilters := Filters("All", "All", "All")

  /** Whether `t` is listed for filters `f` and the raw search box contents `search`. */
  predicate Shown(f: Filters, search: string, t: Tournament) {
    && (f.mode == "All" || t.mode == f.mode)
    && (f.gameType == "All" || t.gameType == f.gameType)
    && (f.size == "All" || t.teamSize == f.size)
    && Includes(ToLower(t.name), ToLower(search))
    && t.status == "open"
  }

  /** `displayTournaments`' list: the shown tournaments, in their stored order. */
  function Displayed(ts: seq<Tournament>, f: Filters, search: string): (r: seq<Tournament>)
    ensures forall t | t in r :: t in ts && Shown(f, search, t)
    ensures forall t | t in ts && Shown(f, search, t) :: t in r
  {
    Lists.Filter(ts, t => Shown(f, search, t))
  }

  /** With every filter off and an empty search, exactly the open tournaments are
      listed, in order. */
  lemma {:induction false} NoFilterListsOpen(ts: seq<Tournament>)
    ensures Displayed(ts, NoFilters, "") == Lists.Filter(ts, (t: Tournament) => t.status == "open")
    decreases |ts|
  {
    if ts != [] {
      IncludesEmpty(ToLower(ts[0].name));
      NoFilterListsOpen(ts[1..]);
    }
  }

  /** The search is case-insensitive over ASCII letters. */
  lemma SearchIgnoresCase(f: Filters, search: string, t: Tournament)
    ensures Shown(f, ToUpper(search), t) == Shown(f, search, t)
  {
    assert ToLower(ToUpper(search)) == ToLower(search);
  }

  /** Narrowing: the list shown under a mode filter is the list shown with that filter
      off, cut down to the tournaments of that mode, in the same order. */
  lemma ModeFilterNarrows(ts: seq<Tournament>, f: Filters, search: string)
    ensures Displayed(ts, f, search)
         == Lists.Filter(Displayed(ts, f.(mode := "All"), search),
                         (t: Tournament) => f.mode == "All" || t.mode == f.mode)
  {
    var g := f.(mode := "All");
    var ofMode := (t: Tournament) => f.mode == "All" || t.mode == f.mode;
    Lists.FilterFilter(ts, t => Shown(g, search, t), ofMode, t => Shown(f, search, t));
    assert Displayed(ts, g, search) == Lists.Filter(ts, t => Shown(g, search, t));
    assert Displayed(ts, f, search) == Lists.Filter(ts, t => Shown(f, search, t));
  }
}
