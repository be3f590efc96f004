/** Scans that visit positions in order and keep some of them. A scan is
    described by its outcomes, `Some(x)` where `x` is recorded and `None`
    where nothing is; what the scan returns is the recorded values in order.
    Both scans of the tiler have this shape: the tile grid, and the patch
    windows of every tile. */
module Selection {
  import opened Wrappers

  /** The recorded values of a one-level scan, in order. */
  function Somes<T>(s: seq<Option<T>>): seq<T>
  {
    if s == [] then []
    else Somes(s[..|s| - 1]) + (if s[|s| - 1].Some? then [s[|s| - 1].value] else [])
  }

  /** One more step of the scan appends its value, if any. */
  lemma SomesAppend<T>(s: seq<Option<T>>, o: Option<T>)
    ensures Somes(s + [o]) == Somes(s) + (if o.Some? then [o.value] else [])
  {
    assert (s + [o])[..|s|] == s;
  }

  lemma SomesPrefix<T>(s: seq<Option<T>>, k: nat)
    requires k < |s|
    ensures Somes(s[..k + 1]) == Somes(s[..k]) + (if s[k].Some? then [s[k].value] else [])
  {
    assert s[..k + 1] == s[..k] + [s[k]];
    SomesAppend(s[..k], s[k]);
  }

  lemma TakeAll<T>(s: seq<T>)
    ensures s[..|s|] == s
  {
  }

  /** Helper: sequence concatenation regroups. */
  lemma AppendAssoc<T>(a: seq<T>, b: seq<T>, c: seq<T>)
    ensures a + b + c == a + (b + c)
  {
  }

  /** Helper: appending nothing. */
  lemma AppendNothing<T>(a: seq<T>)
    ensures a + [] == a
  {
  }

  /** Helper: prepending nothing. */
  lemma NilAppend<T>(a: seq<T>)
    ensures [] + a == a
  {
  }

  /** A value is recorded exactly when some step's outcome is that value. */
  lemma {:induction false} SomesMembers<T>(s: seq<Option<T>>, x: T)
    ensures x in Somes(s) <==> exists i :: 0 <= i < |s| && s[i] == Some(x)
  {
    if s != [] {
      var front := s[..|s| - 1];
      SomesMembers(front, x);
      assert forall i :: 0 <= i < |front| ==> front[i] == s[i];
    }
  }

  /** At most one value per step; exactly one per step when every step records. */
  lemma {:induction false} SomesLength<T>(s: seq<Option<T>>)
    ensures |Somes(s)| <= |s|
    ensures (forall i :: 0 <= i < |s| ==> s[i].Some?) ==> |Somes(s)| == |s|
  {
    if s != [] {
      var front := s[..|s| - 1];
      SomesLength(front);
      assert forall i :: 0 <= i < |front| ==> front[i] == s[i];
    }
  }

  /** The recorded values of a two-level scan (rows, then the positions of
      each row), in order. */
  function Select<T>(d: seq<seq<Option<T>>>): seq<T>
  {
    if d == [] then [] else Select(d[..|d| - 1]) + Somes(d[|d| - 1])
  }

  lemma SelectAppend<T>(d: seq<seq<Option<T>>>, row: seq<Option<T>>)
    ensures Select(d + [row]) == Select(d) + Somes(row)
  {
    assert (d + [row])[..|d|] == d;
  }

  lemma SelectPrefix<T>(d: seq<seq<Option<T>>>, k: nat)
    requires k < |d|
    ensures Select(d[..k + 1]) == Select(d[..k]) + Somes(d[k])
  {
    assert d[..k + 1] == d[..k] + [d[k]];
    SelectAppend(d[..k], d[k]);
  }

  /** A value is recorded exactly when the outcome at some row and column is
      that value. */
  lemma {:induction false} SelectMembers<T>(d: seq<seq<Option<T>>>, x: T)
    ensures x in Select(d) <==>
              exists r, c :: 0 <= r < |d| && 0 <= c < |d[r]| && d[r][c] == Some(x)
  {
    if d != [] {
      var front := d[..|d| - 1];
      SelectMembers(front, x);
      SomesMembers(d[|d| - 1], x);
      assert forall r :: 0 <= r < |front| ==> front[r] == d[r];
    }
  }

  /** A scan of `|d|` rows of `w` steps each, every one of which records,
      returns `|d| * w` values. */
  lemma {:induction false} SelectLengthFull<T>(d: seq<seq<Option<T>>>, w: nat)
    requires forall r :: 0 <= r < |d| ==> |d[r]| == w
    requires forall r, c :: 0 <= r < |d| && 0 <= c < w ==> d[r][c].Some?
    ensures |Select(d)| == |d| * w
  {
    if d != [] {
      var front := d[..|d| - 1];
      assert forall r :: 0 <= r < |front| ==> front[r] == d[r];
      SelectLengthFull(front, w);
      SomesLength(d[|d| - 1]);
      assert (|d| - 1) * w + w == |d| * w;
    }
  }
}
