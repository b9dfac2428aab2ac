/**
 * Discovery, the filter both scripts apply to a directory listing:
 *   files.filter(file => file.toLowerCase().endsWith(suffix) && statSync(join(dir, file)).isFile())
 * `&&` short-circuits, so `statSync` runs only on names with the suffix; when it
 * throws, the whole stage stops (its outer `catch`), which is `None` here.
 */
module Discovery {
  import opened Text
  import opened Host

  /** The name test, the left operand of `&&`. */
  predicate HasSuffix(e: Entry, suffix: string)
  {
    EndsWithIgnoreCase(e.name, suffix)
  }

  /** An entry the filter keeps. */
  predicate Selected(e: Entry, suffix: string)
  {
    HasSuffix(e, suffix) && e.kind == File
  }

  /** An entry on which the filter's `statSync` call throws. */
  predicate Throws(e: Entry, suffix: string)
  {
    HasSuffix(e, suffix) && e.kind == Unstatable
  }

  /** The filter of both scripts; `None` when a `statSync` call throws. It never keeps more names than entries. */
  function Filter(entries: seq<Entry>, suffix: string): (r: Option<seq<string>>)
    ensures r.Some? ==> |r.value| <= |entries|
  {
    if entries == [] then Some([])
    else if Throws(entries[0], suffix) then None
    else
      match Filter(entries[1..], suffix)
      case None => None
      case Some(rest) => Some((if Selected(entries[0], suffix) then [entries[0].name] else []) + rest)
  }

  /** Running the filter on two listings one after the other. */
  function Then(a: Option<seq<string>>, b: Option<seq<string>>): Option<seq<string>>
  {
    if a.Some? && b.Some? then Some(a.value + b.value) else None
  }

  /**
   * The filter is a homomorphism from listings to name sequences: what it keeps
   * from the first part comes, in order, before what it keeps from the second.
   */
  lemma {:induction false} FilterConcat(a: seq<Entry>, b: seq<Entry>, suffix: string)
    ensures Filter(a + b, suffix) == Then(Filter(a, suffix), Filter(b, suffix))
  {
    if a == [] {
      assert a + b == b;
      if Filter(b, suffix).Some? {
        assert [] + Filter(b, suffix).value == Filter(b, suffix).value;
      }
    } else {
      assert (a + b)[0] == a[0] && (a + b)[1..] == a[1..] + b;
      FilterConcat(a[1..], b, suffix);
      if Filter(a[1..], suffix).Some? && Filter(b, suffix).Some? {
        var head := if Selected(a[0], suffix) then [a[0].name] else [];
        var ra, rb := Filter(a[1..], suffix).value, Filter(b, suffix).value;
        assert head + (ra + rb) == (head + ra) + rb;
      }
    }
  }

  /** On one entry: keep it, drop it, or fail. */
  lemma FilterSingle(e: Entry, suffix: string)
    ensures Filter([e], suffix) ==
      if Throws(e, suffix) then None else Some(if Selected(e, suffix) then [e.name] else [])
  {
    var nil: seq<Entry> := [];
    assert [e][1..] == nil;
    if !Throws(e, suffix) {
      var head: seq<string> := if Selected(e, suffix) then [e.name] else [];
      assert head + [] == head;
    }
  }

  /** The whole filter fails exactly when `statSync` throws on some entry it reaches. */
  lemma {:induction false} FilterFails(entries: seq<Entry>, suffix: string)
    ensures Filter(entries, suffix).None? <==> exists i :: 0 <= i < |entries| && Throws(entries[i], suffix)
  {
    if entries != [] {
      FilterFails(entries[1..], suffix);
      if exists i :: 0 <= i < |entries[1..]| && Throws(entries[1..][i], suffix) {
        var i :| 0 <= i < |entries[1..]| && Throws(entries[1..][i], suffix);
        assert Throws(entries[i + 1], suffix);
      }
      if exists i :: 0 <= i < |entries| && Throws(entries[i], suffix) {
        var i :| 0 <= i < |entries| && Throws(entries[i], suffix);
        if i > 0 {
          assert Throws(entries[1..][i - 1], suffix);
        }
      }
    }
  }

  /**
   * When it succeeds, the filter keeps a name exactly when some entry with that
   * name is a regular file with the suffix, and keeps no more names than entries.
   */
  lemma {:induction false} FilterKeeps(entries: seq<Entry>, suffix: string)
    requires Filter(entries, suffix).Some?
    ensures |Filter(entries, suffix).value| <= |entries|
    ensures forall x :: x in Filter(entries, suffix).value <==>
      exists i :: 0 <= i < |entries| && Selected(entries[i], suffix) && entries[i].name == x
  {
    if entries != [] {
      var rest := entries[1..];
      FilterKeeps(rest, suffix);
      forall x
        ensures x in Filter(entries, suffix).value <==>
          exists i :: 0 <= i < |entries| && Selected(entries[i], suffix) && entries[i].name == x
      {
        if x in Filter(rest, suffix).value {
          var i :| 0 <= i < |rest| && Selected(rest[i], suffix) && rest[i].name == x;
          assert Selected(entries[i + 1], suffix) && entries[i + 1].name == x;
        }
        if exists i :: 0 <= i < |entries| && Selected(entries[i], suffix) && entries[i].name == x {
          var i :| 0 <= i < |entries| && Selected(entries[i], suffix) && entries[i].name == x;
          if i > 0 {
            assert Selected(rest[i - 1], suffix) && rest[i - 1].name == x;
          }
        }
      }
    }
  }

  /** Every name the filter keeps has the suffix. */
  lemma {:induction false} FilterSuffix(entries: seq<Entry>, suffix: string)
    requires Filter(entries, suffix).Some?
    ensures forall k :: 0 <= k < |Filter(entries, suffix).value| ==>
      EndsWithIgnoreCase(Filter(entries, suffix).value[k], suffix)
  {
    if entries != [] {
      FilterSuffix(entries[1..], suffix);
    }
  }
}
