/** The browser-side legacy preference store (src/utils/localStorage.ts): one storage
    slot holding a liked list and a disliked list of games, and the three operations
    that move a game between them or drop it. The list computations are functions;
    the slot is a field of `Browser` that loading reads and saving overwrites. */
module LocalStorage {
  import opened Common
  import opened Types

  /** The storage key the slot lives under. */
  const PreferencesKey := "gameRecommender.userPreferences"

  /** The legacy shape `{ likedGames, dislikedGames }`. */
  datatype Legacy = Legacy(likedGames: seq<Game>, dislikedGames: seq<Game>)

  const EmptyLegacy := Legacy([], [])

  /** What the slot holds: nothing (or the empty string), text that does not parse
      (or a read that throws), a saved record, or JSON of another shape (`null`, an
      array, an object without both lists), which loading returns as it is. */
  datatype Slot = Absent | Unreadable | Holds(prefs: Legacy) | OtherJson

  predicate HasId(s: seq<Game>, id: string) {
    exists i | 0 <= i < |s| :: s[i].id == id
  }

  /** `s.filter(g => g.id !== id)`. */
  function WithoutId(s: seq<Game>, id: string): (r: seq<Game>)
    ensures forall g :: g in r <==> g in s && g.id != id
    ensures !HasId(r, id)
    ensures |r| <= |s|
    ensures |r| == |s| <==> !HasId(s, id)
    ensures !HasId(s, id) ==> r == s
  {
    if s == [] then []
    else
      var rest := WithoutId(s[1..], id);
      assert forall i | 1 <= i < |s| :: s[i] == s[1..][i - 1];
      assert HasId(s, id) <==> s[0].id == id || HasId(s[1..], id) by {
        if HasId(s[1..], id) {
          var i :| 0 <= i < |s[1..]| && s[1..][i].id == id;
          assert s[i + 1].id == id;
        }
      }
      if s[0].id == id then rest
      else
        assert !HasId([s[0]] + rest, id) by {
          forall i | 0 <= i < |[s[0]] + rest| ensures ([s[0]] + rest)[i].id != id {
            if i > 0 { assert ([s[0]] + rest)[i] == rest[i - 1]; }
          }
        }
        [s[0]] + rest
  }

  /** Filtering keeps the order of what remains: it distributes over concatenation. */
  lemma {:induction false} WithoutIdAppend(a: seq<Game>, b: seq<Game>, id: string)
    ensures WithoutId(a + b, id) == WithoutId(a, id) + WithoutId(b, id)
  {
    if a != [] {
      assert (a + b)[1..] == a[1..] + b;
      WithoutIdAppend(a[1..], b, id);
    } else {
      assert a + b == b;
    }
  }

  /** No two entries of a list share an id. */
  predicate UniqueIds(s: seq<Game>) {
    forall i, j | 0 <= i < j < |s| :: s[i].id != s[j].id
  }

  /** No id is both liked and disliked. */
  predicate DisjointIds(a: seq<Game>, b: seq<Game>) {
    forall i, j | 0 <= i < |a| && 0 <= j < |b| :: a[i].id != b[j].id
  }

  predicate Consistent(p: Legacy) {
    UniqueIds(p.likedGames) && UniqueIds(p.dislikedGames) && DisjointIds(p.likedGames, p.dislikedGames)
  }

  /** The value an operation returns and whether it saves. */
  datatype Change = Change(prefs: Legacy, saves: bool)

  /** `addLikedGame` on loaded preferences `p`. */
  function AddLiked(p: Legacy, g: Game): (c: Change)
    ensures HasId(c.prefs.likedGames, g.id) && !HasId(c.prefs.dislikedGames, g.id)
    ensures !HasId(p.likedGames, g.id) ==> c.prefs.likedGames == p.likedGames + [g]
    ensures HasId(p.likedGames, g.id) ==> c.prefs.likedGames == p.likedGames
    ensures c.prefs.dislikedGames == WithoutId(p.dislikedGames, g.id)
    ensures c.saves <==> !HasId(p.likedGames, g.id) || HasId(p.dislikedGames, g.id)
    ensures !c.saves ==> c.prefs == p
  {
    var filteredDisliked := WithoutId(p.dislikedGames, g.id);
    if !HasId(p.likedGames, g.id) then
      assert (p.likedGames + [g])[|p.likedGames|] == g;
      Change(Legacy(p.likedGames + [g], filteredDisliked), true)
    else if |filteredDisliked| != |p.dislikedGames| then
      Change(Legacy(p.likedGames, filteredDisliked), true)
    else Change(p, false)
  }

  /** `addDislikedGame`: the mirror image of `addLikedGame`. */
  function AddDisliked(p: Legacy, g: Game): (c: Change)
    ensures HasId(c.prefs.dislikedGames, g.id) && !HasId(c.prefs.likedGames, g.id)
    ensures !HasId(p.dislikedGames, g.id) ==> c.prefs.dislikedGames == p.dislikedGames + [g]
    ensures HasId(p.dislikedGames, g.id) ==> c.prefs.dislikedGames == p.dislikedGames
    ensures c.prefs.likedGames == WithoutId(p.likedGames, g.id)
    ensures c.saves <==> !HasId(p.dislikedGames, g.id) || HasId(p.likedGames, g.id)
    ensures !c.saves ==> c.prefs == p
  {
    var filteredLiked := WithoutId(p.likedGames, g.id);
    if !HasId(p.dislikedGames, g.id) then
      assert (p.dislikedGames + [g])[|p.dislikedGames|] == g;
      Change(Legacy(filteredLiked, p.dislikedGames + [g]), true)
    else if |filteredLiked| != |p.likedGames| then
      Change(Legacy(filteredLiked, p.dislikedGames), true)
    else Change(p, false)
  }

  /** `removeGame`: both lists filtered; it always saves. */
  function Remove(p: Legacy, id: string): (c: Change)
    ensures !HasId(c.prefs.likedGames, id) && !HasId(c.prefs.dislikedGames, id)
    ensures forall g :: g in c.prefs.likedGames <==> g in p.likedGames && g.id != id
    ensures forall g :: g in c.prefs.dislikedGames <==> g in p.dislikedGames && g.id != id
    ensures c.saves
  {
    Change(Legacy(WithoutId(p.likedGames, id), WithoutId(p.dislikedGames, id)), true)
  }

  /** Liking the same game twice is the same as liking it once, and the second call saves nothing. */
  lemma AddLikedIdempotent(p: Legacy, g: Game)
    ensures AddLiked(AddLiked(p, g).prefs, g) == Change(AddLiked(p, g).prefs, false)
  {
  }

  lemma AddDislikedIdempotent(p: Legacy, g: Game)
    ensures AddDisliked(AddDisliked(p, g).prefs, g) == Change(AddDisliked(p, g).prefs, false)
  {
  }

  lemma RemoveIdempotent(p: Legacy, id: string)
    ensures Remove(Remove(p, id).prefs, id) == Remove(p, id)
  {
  }

  /** A filtered list keeps unique ids and stays disjoint from what it was disjoint from. */
  lemma {:induction false} WithoutIdKeepsUnique(s: seq<Game>, id: string)
    requires UniqueIds(s)
    ensures UniqueIds(WithoutId(s, id))
  {
    if s != [] {
      assert UniqueIds(s[1..]) by {
        forall i, j | 0 <= i < j < |s[1..]| ensures s[1..][i].id != s[1..][j].id {
          assert s[1..][i] == s[i + 1] && s[1..][j] == s[j + 1];
        }
      }
      WithoutIdKeepsUnique(s[1..], id);
      var rest := WithoutId(s[1..], id);
      if s[0].id != id {
        forall j | 0 <= j < |rest| ensures s[0].id != rest[j].id {
          assert rest[j] in s[1..];
          var k :| 0 <= k < |s[1..]| && s[1..][k] == rest[j];
          assert s[k + 1] == rest[j];
        }
        var r := [s[0]] + rest;
        forall i, j | 0 <= i < j < |r| ensures r[i].id != r[j].id {
          if i == 0 { assert r[j] == rest[j - 1]; } else { assert r[i] == rest[i - 1] && r[j] == rest[j - 1]; }
        }
      }
    }
  }

  lemma DisjointFromFiltered(a: seq<Game>, b: seq<Game>, id: string)
    requires DisjointIds(a, b)
    ensures DisjointIds(WithoutId(a, id), b) && DisjointIds(a, WithoutId(b, id))
  {
    var a' := WithoutId(a, id);
    var b' := WithoutId(b, id);
    forall i, j | 0 <= i < |a'| && 0 <= j < |b| ensures a'[i].id != b[j].id {
      assert a'[i] in a;
    }
    forall i, j | 0 <= i < |a| && 0 <= j < |b'| ensures a[i].id != b'[j].id {
      assert b'[j] in b;
    }
  }

  /** Appending `g` keeps ids unique when `g.id` was absent, and keeps disjointness from a
      list from which `g.id` has been filtered out. */
  lemma AppendFresh(s: seq<Game>, other: seq<Game>, g: Game)
    requires UniqueIds(s) && !HasId(s, g.id)
    requires DisjointIds(s, other) && !HasId(other, g.id)
    ensures UniqueIds(s + [g]) && DisjointIds(s + [g], other) && DisjointIds(other, s + [g])
  {
    var t := s + [g];
    forall i, j | 0 <= i < j < |t| ensures t[i].id != t[j].id {
      if j == |s| { assert t[i] == s[i]; } else { assert t[i] == s[i] && t[j] == s[j]; }
    }
    forall i, j | 0 <= i < |t| && 0 <= j < |other| ensures t[i].id != other[j].id {
      if i < |s| { assert t[i] == s[i]; }
    }
  }

  /** Id-disjoint, duplicate-free lists stay so under all three operations. */
  lemma OperationsKeepConsistent(p: Legacy, g: Game, id: string)
    requires Consistent(p)
    ensures Consistent(AddLiked(p, g).prefs)
    ensures Consistent(AddDisliked(p, g).prefs)
    ensures Consistent(Remove(p, id).prefs)
  {
    WithoutIdKeepsUnique(p.likedGames, g.id);
    WithoutIdKeepsUnique(p.dislikedGames, g.id);
    WithoutIdKeepsUnique(p.likedGames, id);
    WithoutIdKeepsUnique(p.dislikedGames, id);
    DisjointFromFiltered(p.likedGames, p.dislikedGames, g.id);
    DisjointFromFiltered(p.likedGames, p.dislikedGames, id);
    var fl := WithoutId(p.likedGames, id);
    DisjointFromFiltered(fl, p.dislikedGames, id);
    var fd := WithoutId(p.dislikedGames, g.id);
    if !HasId(p.likedGames, g.id) {
      AppendFresh(p.likedGames, fd, g);
    }
    var fl2 := WithoutId(p.likedGames, g.id);
    if !HasId(p.dislikedGames, g.id) {
      assert DisjointIds(p.dislikedGames, fl2) by {
        forall i, j | 0 <= i < |p.dislikedGames| && 0 <= j < |fl2|
          ensures p.dislikedGames[i].id != fl2[j].id
        {
          assert fl2[j] in p.likedGames;
        }
      }
      AppendFresh(p.dislikedGames, fl2, g);
    }
  }

  /** The browser's storage slot. `hasWindow` is false during server rendering, where
      loading gives empty lists and saving does nothing. A `writable` of false stands for
      a `setItem` that throws (a full quota, a denied storage), whose error is swallowed. */
  class Browser {
    const hasWindow: bool
    var slot: Slot

    constructor (hasWindow: bool, slot: Slot)
      ensures this.hasWindow == hasWindow && this.slot == slot
    {
      this.hasWindow := hasWindow;
      this.slot := slot;
    }

    /** `loadUserPreferences`: None when the value it returns is not of the legacy shape,
        so that reading either list from it throws a TypeError. */
    function Load(): (p: Option<Legacy>)
      reads this
      ensures !hasWindow || slot.Absent? || slot.Unreadable? ==> p == Some(EmptyLegacy)
      ensures hasWindow && slot.Holds? ==> p == Some(slot.prefs)
      ensures p.None? <==> hasWindow && slot.OtherJson?
    {
      if !hasWindow then Some(EmptyLegacy)
      else
        match slot
        case Holds(prefs) => Some(prefs)
        case OtherJson => None
        case _ => Some(EmptyLegacy)
    }

    /** `saveUserPreferences`. */
    method Save(p: Legacy, writable: bool)
      modifies this
      ensures slot == if hasWindow && writable then Holds(p) else old(slot)
      ensures hasWindow && writable ==> Load() == Some(p)
    {
      if hasWindow && writable {
        slot := Holds(p);
      }
    }

    /** `addLikedGame`: None when it throws, before any save, on a record of another shape. */
    method AddLikedGame(g: Game, writable: bool) returns (r: Option<Legacy>)
      modifies this
      ensures old(Load()).None? ==> r.None? && slot == old(slot)
      ensures old(Load()).Some? ==>
        var c := AddLiked(old(Load()).value, g);
        r == Some(c.prefs) && slot == if c.saves && hasWindow && writable then Holds(c.prefs) else old(slot)
    {
      var loaded := Load();
      if loaded.None? {
        return None;
      }
      var c := AddLiked(loaded.value, g);
      if c.saves {
        Save(c.prefs, writable);
      }
      r := Some(c.prefs);
    }

    /** `addDislikedGame`: None when it throws, before any save, on a record of another shape. */
    method AddDislikedGame(g: Game, writable: bool) returns (r: Option<Legacy>)
      modifies this
      ensures old(Load()).None? ==> r.None? && slot == old(slot)
      ensures old(Load()).Some? ==>
        var c := AddDisliked(old(Load()).value, g);
        r == Some(c.prefs) && slot == if c.saves && hasWindow && writable then Holds(c.prefs) else old(slot)
    {
      var loaded := Load();
      if loaded.None? {
        return None;
      }
      var c := AddDisliked(loaded.value, g);
      if c.saves {
        Save(c.prefs, writable);
      }
      r := Some(c.prefs);
    }

    /** `removeGame`: None when it throws, before the save, on a record of another shape. */
    method RemoveGame(id: string, writable: bool) returns (r: Option<Legacy>)
      modifies this
      ensures old(Load()).None? ==> r.None? && slot == old(slot)
      ensures old(Load()).Some? ==>
        var c := Remove(old(Load()).value, id);
        r == Some(c.prefs) && slot == if hasWindow && writable then Holds(c.prefs) else old(slot)
    {
      var loaded := Load();
      if loaded.None? {
        return None;
      }
      var c := Remove(loaded.value, id);
      Save(c.prefs, writable);
      r := Some(c.prefs);
    }
  }
}
