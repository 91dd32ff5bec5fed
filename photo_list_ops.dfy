/** The list operations the component performs on its `photos` array: the
    truncation applied to a fetched list, the `findIndex` an edit uses, the
    slot write that replaces the found record, and the `filter` a delete uses. */
module PhotoListOps {
  import opened Photos

  /** How many fetched records the component keeps. */
  const MaxShown: nat := 20

  /** `response.slice(0, 20)`. */
  function FirstShown(response: seq<Photo>): (r: seq<Photo>)
    ensures |r| <= MaxShown
    ensures |r| == if |response| < MaxShown then |response| else MaxShown
    ensures forall i :: 0 <= i < |r| ==> r[i] == response[i]
  {
    if |response| <= MaxShown then response else response[..MaxShown]
  }

  /** `ps.findIndex(p => p.id === key)`: the first index whose id is `key`, or -1. */
  function FirstIndexOf(ps: seq<Photo>, key: Option<int>): (r: int)
    ensures -1 <= r < |ps|
    ensures r == -1 <==> forall j :: 0 <= j < |ps| ==> ps[j].id != key
    ensures 0 <= r ==> ps[r].id == key && forall j :: 0 <= j < r ==> ps[j].id != key
  {
    if ps == [] then -1
    else if ps[0].id == key then 0
    else
      var k := FirstIndexOf(ps[1..], key);
      if k == -1 then -1 else k + 1
  }

  /** Reference definition of an edit: walk the list and put `p` in place of the
      first record whose id is `key`, leaving the list alone when there is none. */
  function ReplaceFirst(ps: seq<Photo>, key: Option<int>, p: Photo): seq<Photo>
  {
    if ps == [] then []
    else if ps[0].id == key then [p] + ps[1..]
    else [ps[0]] + ReplaceFirst(ps[1..], key, p)
  }

  /** Writing `p` into the slot `findIndex` returns (line 127 of the component)
      is the reference edit: the length is kept, the first match becomes `p`,
      every other position is untouched, and a list without a match is unchanged. */
  lemma {:induction false} ReplaceAtFirstIndex(ps: seq<Photo>, key: Option<int>, p: Photo)
    ensures var i := FirstIndexOf(ps, key);
            ReplaceFirst(ps, key, p) == if i == -1 then ps else ps[i := p]
  {
    if ps != [] && ps[0].id != key {
      ReplaceAtFirstIndex(ps[1..], key, p);
      var k := FirstIndexOf(ps[1..], key);
      if k != -1 {
        assert [ps[0]] + ps[1..][k := p] == ps[k + 1 := p];
      } else {
        assert [ps[0]] + ps[1..] == ps;
      }
    } else if ps != [] {
      assert [p] + ps[1..] == ps[0 := p];
    }
  }

  /** Editing a record, opening it again and confirming a second edit: when the
      first response kept the record's id, the list is what the second edit alone
      would have made of the original. (Two updates confirmed from one opening do
      not compose this way: the first callback closes the modal, so the second
      looks for id 0.) */
  lemma {:induction false} ReplaceFirstTwice(ps: seq<Photo>, key: Option<int>, p: Photo, q: Photo)
    requires p.id == key
    ensures ReplaceFirst(ReplaceFirst(ps, key, p), key, q) == ReplaceFirst(ps, key, q)
  {
    if ps != [] && ps[0].id != key {
      ReplaceFirstTwice(ps[1..], key, p, q);
      var rest := ReplaceFirst(ps[1..], key, p);
      assert ([ps[0]] + rest)[1..] == rest;
    } else if ps != [] {
      assert ([p] + ps[1..])[1..] == ps[1..];
    }
  }

  /** `ps.filter(p => p.id !== id)`. */
  function Without(ps: seq<Photo>, id: int): (r: seq<Photo>)
    ensures |r| <= |ps|
  {
    if ps == [] then []
    else (if ps[0].id == Some(id) then [] else [ps[0]]) + Without(ps[1..], id)
  }

  /** No record with the deleted id is left. */
  lemma {:induction false} WithoutRemovesId(ps: seq<Photo>, id: int)
    ensures forall i :: 0 <= i < |Without(ps, id)| ==> Without(ps, id)[i].id != Some(id)
  {
    if ps != [] {
      WithoutRemovesId(ps[1..], id);
    }
  }

  /** A record survives a delete if and only if it was in the list and has
      another id. */
  lemma {:induction false} WithoutMembers(ps: seq<Photo>, id: int, x: Photo)
    ensures x in Without(ps, id) <==> x in ps && x.id != Some(id)
  {
    if ps != [] {
      WithoutMembers(ps[1..], id, x);
      assert ps == [ps[0]] + ps[1..];
    }
  }

  /** `s` can be obtained from `t` by deleting elements: it keeps their order. */
  predicate IsSubsequence(s: seq<Photo>, t: seq<Photo>)
    decreases |t|
  {
    if s == [] then true
    else if t == [] then false
    else if s[0] == t[0] then IsSubsequence(s[1..], t[1..])
    else IsSubsequence(s, t[1..])
  }

  /** A delete keeps the surviving records in their original relative order. */
  lemma {:induction false} WithoutIsSubsequence(ps: seq<Photo>, id: int)
    ensures IsSubsequence(Without(ps, id), ps)
  {
    if ps != [] {
      WithoutIsSubsequence(ps[1..], id);
      var rest := Without(ps[1..], id);
      if ps[0].id != Some(id) {
        var r := [ps[0]] + rest;
        assert Without(ps, id) == r;
        assert r[0] == ps[0] && r[1..] == rest;
      } else {
        assert Without(ps, id) == rest;
        WithoutRemovesId(ps[1..], id);
        assert rest != [] ==> rest[0].id != Some(id);
      }
    }
  }

  /** A delete removes every copy of a record with that id and keeps every copy
      of every other record. */
  lemma {:induction false} WithoutCount(ps: seq<Photo>, id: int, x: Photo)
    ensures multiset(Without(ps, id))[x] == if x.id == Some(id) then 0 else multiset(ps)[x]
  {
    if ps != [] {
      WithoutCount(ps[1..], id, x);
      assert ps == [ps[0]] + ps[1..];
    }
  }

  /** The list keeps its length under a delete exactly when no record had that id. */
  lemma {:induction false} WithoutKeepsLengthIff(ps: seq<Photo>, id: int)
    ensures |Without(ps, id)| == |ps| <==> forall j :: 0 <= j < |ps| ==> ps[j].id != Some(id)
    ensures (forall j :: 0 <= j < |ps| ==> ps[j].id != Some(id)) ==> Without(ps, id) == ps
  {
    if ps != [] {
      WithoutKeepsLengthIff(ps[1..], id);
      if ps[0].id != Some(id) {
        assert [ps[0]] + ps[1..] == ps;
        assert forall j :: 1 <= j < |ps| ==> ps[j] == ps[1..][j - 1];
      }
    }
  }

  /** Deleting the same id twice is deleting it once. */
  lemma WithoutIdempotent(ps: seq<Photo>, id: int)
    ensures Without(Without(ps, id), id) == Without(ps, id)
  {
    WithoutRemovesId(ps, id);
    WithoutKeepsLengthIff(Without(ps, id), id);
  }

  /** Deleting a record that was just created with that id gives the list a
      delete of that id would have given before the create. */
  lemma DeleteUndoesCreate(ps: seq<Photo>, c: Photo, id: int)
    requires c.id == Some(id)
    ensures Without([c] + ps, id) == Without(ps, id)
  {
  }

  /** Deleting a record after an edit whose response kept its id gives the list
      a delete of that id would have given without the edit. */
  lemma {:induction false} DeleteAfterEdit(ps: seq<Photo>, id: int, p: Photo)
    requires p.id == Some(id)
    ensures Without(ReplaceFirst(ps, Some(id), p), id) == Without(ps, id)
  {
    if ps != [] && ps[0].id != Some(id) {
      DeleteAfterEdit(ps[1..], id, p);
      var rest := ReplaceFirst(ps[1..], Some(id), p);
      assert ([ps[0]] + rest)[1..] == rest;
    } else if ps != [] {
      assert ([p] + ps[1..])[1..] == ps[1..];
    }
  }
}
