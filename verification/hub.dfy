/** The game hub: toggling favourites and filtering the catalogue by tab.
    The catalogue itself is static data and is a parameter here. */
module Hub {
  import opened Common

  datatype GameType = Solo | Multiplayer

  /** The catalogue fields the hub logic reads. */
  datatype Game = Game(id: string, kind: GameType)

  datatype Tab = All | SoloTab | MultiplayerTab | Favorites

  /** The elements of `s` satisfying `p`, in order. */
  function Filter<T(!new)>(s: seq<T>, p: T -> bool): (r: seq<T>)
    ensures forall x :: x in r <==> x in s && p(x)
    ensures forall x :: multiset(r)[x] == if p(x) then multiset(s)[x] else 0
    ensures |r| <= |s|
    ensures IsSubsequence(r, s)
  {
    if |s| == 0 then []
    else
      assert s == [s[0]] + s[1..];
      if p(s[0]) then [s[0]] + Filter(s[1..], p)
      else Filter(s[1..], p)
  }

  /** `favs` without any occurrence of `id`, order kept. */
  function RemoveAll(favs: seq<string>, id: string): (r: seq<string>)
    ensures forall x :: x in r <==> x in favs && x != id
    ensures forall x :: multiset(r)[x] == if x == id then 0 else multiset(favs)[x]
    ensures IsSubsequence(r, favs)
  {
    if |favs| == 0 then []
    else
      assert favs == [favs[0]] + favs[1..];
      if favs[0] != id then [favs[0]] + RemoveAll(favs[1..], id)
      else RemoveAll(favs[1..], id)
  }

  /** Favourite toggle: drop every occurrence of the id when present,
      otherwise append it. */
  function ToggleFavorite(favs: seq<string>, id: string): (r: seq<string>)
    ensures id in favs ==> id !in r
    ensures id !in favs ==> id in r && r == favs + [id]
    ensures forall x :: x != id ==> (x in r <==> x in favs)
  {
    if id in favs then RemoveAll(favs, id) else favs + [id]
  }

  predicate NoDuplicates<T(==)>(s: seq<T>)
  {
    forall i, j :: 0 <= i < j < |s| ==> s[i] != s[j]
  }

  lemma {:induction false} RemoveAllKeepsNoDuplicates(s: seq<string>, id: string)
    requires NoDuplicates(s)
    ensures NoDuplicates(RemoveAll(s, id))
  {
    if |s| > 0 {
      assert NoDuplicates(s[1..]);
      RemoveAllKeepsNoDuplicates(s[1..], id);
      var rest := RemoveAll(s[1..], id);
      if s[0] != id {
        assert s[0] !in s[1..];
        assert s[0] !in rest;
        var r := [s[0]] + rest;
        forall i, j | 0 <= i < j < |r| ensures r[i] != r[j] {
          if i == 0 {
            assert r[j] == rest[j - 1];
          } else {
            assert r[i] == rest[i - 1] && r[j] == rest[j - 1];
          }
        }
      }
    }
  }

  /** Toggling keeps a duplicate-free favourites list duplicate-free. */
  lemma ToggleKeepsNoDuplicates(favs: seq<string>, id: string)
    requires NoDuplicates(favs)
    ensures NoDuplicates(ToggleFavorite(favs, id))
  {
    if id in favs {
      RemoveAllKeepsNoDuplicates(favs, id);
    } else {
      var r := favs + [id];
      forall i, j | 0 <= i < j < |r| ensures r[i] != r[j] {
        if j == |favs| {
          assert r[i] == favs[i];
        }
      }
    }
  }

  /** Toggling the same id twice restores a duplicate-free list that did not hold it. */
  lemma ToggleTwiceRestores(favs: seq<string>, id: string)
    requires id !in favs
    ensures ToggleFavorite(ToggleFavorite(favs, id), id) == favs
  {
    RemoveAllAppended(favs, id);
  }

  lemma {:induction false} RemoveAllAppended(favs: seq<string>, id: string)
    requires id !in favs
    ensures RemoveAll(favs + [id], id) == favs
  {
    if |favs| > 0 {
      assert (favs + [id])[1..] == favs[1..] + [id];
      RemoveAllAppended(favs[1..], id);
    } else {
      assert (favs + [id])[1..] == [];
    }
  }

  predicate IsSolo(g: Game) { g.kind == Solo }
  predicate IsMultiplayer(g: Game) { g.kind == Multiplayer }

  /** The games shown on a tab. */
  function FilteredGames(catalogue: seq<Game>, tab: Tab, favs: seq<string>): (r: seq<Game>)
    ensures IsSubsequence(r, catalogue)
    ensures tab == All ==> r == catalogue
    ensures tab == SoloTab ==> forall g :: g in r <==> g in catalogue && g.kind == Solo
    ensures tab == MultiplayerTab ==> forall g :: g in r <==> g in catalogue && g.kind == Multiplayer
    ensures tab == Favorites ==> forall g :: g in r <==> g in catalogue && g.id in favs
    ensures tab == SoloTab ==> forall g :: multiset(r)[g] == if g.kind == Solo then multiset(catalogue)[g] else 0
    ensures tab == MultiplayerTab ==>
              forall g :: multiset(r)[g] == if g.kind == Multiplayer then multiset(catalogue)[g] else 0
    ensures tab == Favorites ==> forall g :: multiset(r)[g] == if g.id in favs then multiset(catalogue)[g] else 0
  {
    match tab
    case SoloTab => Filter(catalogue, IsSolo)
    case MultiplayerTab => Filter(catalogue, IsMultiplayer)
    case Favorites => Filter(catalogue, (g: Game) => g.id in favs)
    case All => SubsequenceReflexive(catalogue); catalogue
  }

  lemma {:induction false} SubsequenceReflexive<T>(s: seq<T>)
    ensures IsSubsequence(s, s)
  {
    if |s| > 0 {
      SubsequenceReflexive(s[1..]);
    }
  }

  /** The solo and multiplayer tabs split the catalogue between them. */
  lemma {:induction false} TabsPartitionCatalogue(catalogue: seq<Game>)
    ensures |FilteredGames(catalogue, SoloTab, [])| + |FilteredGames(catalogue, MultiplayerTab, [])| == |catalogue|
  {
    if |catalogue| > 0 {
      TabsPartitionCatalogue(catalogue[1..]);
    }
  }
}
