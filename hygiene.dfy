/**
 * The list clean-up the entities apply to their string-list fields: map each
 * entry through a cleaning function, drop the entries whose cleaned form is
 * rejected, keep the first occurrence of each, and cut the list to a cap.
 * Evidence sources, fact-check sources and text keywords are instances.
 */
module Hygiene {
  import opened Seqs

  /** `if clean_source`: a cleaned entry is kept when it is not empty. */
  predicate NonBlank(s: string) {
    s != []
  }

  /** The cleaned entries of v that pass `keep`, in input order, built from the end as a loop extends it. */
  function Cleaned(v: seq<string>, clean: string -> string, keep: string -> bool): (r: seq<string>)
    ensures |r| <= |v|
  {
    if v == [] then []
    else
      var x := clean(v[|v| - 1]);
      Cleaned(v[..|v| - 1], clean, keep) + (if keep(x) then [x] else [])
  }

  /** One more entry extends the cleaned list by its cleaned form when that form is kept. */
  lemma CleanedStep(v: seq<string>, clean: string -> string, keep: string -> bool, i: nat)
    requires i < |v|
    ensures var x := clean(v[i]);
      Cleaned(v[..i + 1], clean, keep) == Cleaned(v[..i], clean, keep) + (if keep(x) then [x] else [])
  {
    assert v[..i + 1][..i] == v[..i];
  }

  /** Every cleaned entry passes the filter and is the cleaned form of some input entry. */
  lemma {:induction false} CleanedSound(v: seq<string>, clean: string -> string, keep: string -> bool, k: nat)
    requires k < |Cleaned(v, clean, keep)|
    ensures var x := Cleaned(v, clean, keep)[k];
      keep(x) && exists i :: 0 <= i < |v| && x == clean(v[i])
  {
    var front := Cleaned(v[..|v| - 1], clean, keep);
    if k < |front| {
      CleanedSound(v[..|v| - 1], clean, keep, k);
      var i :| 0 <= i < |v| - 1 && front[k] == clean(v[..|v| - 1][i]);
      assert v[..|v| - 1][i] == v[i];
    }
  }

  /** No entry whose cleaned form passes the filter is lost. */
  lemma {:induction false} CleanedComplete(v: seq<string>, clean: string -> string, keep: string -> bool, i: nat)
    requires i < |v| && keep(clean(v[i]))
    ensures clean(v[i]) in Cleaned(v, clean, keep)
  {
    if i < |v| - 1 {
      assert v[..|v| - 1][i] == v[i];
      CleanedComplete(v[..|v| - 1], clean, keep, i);
    }
  }

  /** A list of entries that are already clean and kept is its own cleaned list. */
  lemma {:induction false} CleanedFixed(w: seq<string>, clean: string -> string, keep: string -> bool)
    requires forall i :: 0 <= i < |w| ==> keep(w[i]) && clean(w[i]) == w[i]
    ensures Cleaned(w, clean, keep) == w
  {
    if w != [] {
      var front := w[..|w| - 1];
      assert forall i :: 0 <= i < |front| ==> front[i] == w[i];
      CleanedFixed(front, clean, keep);
      assert front + [w[|w| - 1]] == w;
    }
  }

  /**
   * One iteration of a clean-up loop: the next entry's cleaned form is
   * appended when it passes the filter and has not been kept yet.
   */
  lemma DedupeStep(v: seq<string>, clean: string -> string, keep: string -> bool, i: nat)
    requires i < |v|
    ensures var kept := Dedupe(Cleaned(v[..i], clean, keep));
      var x := clean(v[i]);
      Dedupe(Cleaned(v[..i + 1], clean, keep)) == kept + (if keep(x) && x !in kept then [x] else [])
  {
    var before := Cleaned(v[..i], clean, keep);
    var x := clean(v[i]);
    CleanedStep(v, clean, keep, i);
    if keep(x) {
      DedupeSnoc(before, x);
      DedupeMembers(before, x);
    } else {
      assert before + [] == before;
    }
  }

  /** The whole clean-up: clean, filter, keep first occurrences, cut to `cap`. */
  function Tidy(v: seq<string>, clean: string -> string, keep: string -> bool, cap: nat): seq<string> {
    SliceTo(Dedupe(Cleaned(v, clean, keep)), cap)
  }

  /** Nothing comes of an empty list. */
  lemma TidyEmpty(clean: string -> string, keep: string -> bool, cap: nat)
    ensures Tidy([], clean, keep, cap) == []
  {
    assert Dedupe(Cleaned([], clean, keep)) == [];
  }

  /**
   * The cleaned list has at most `cap` entries and no repetition; each entry
   * passes the filter and is the cleaned form of an input entry; entries keep
   * the order of their first occurrence; and when the cap does not bite, no
   * kept entry is lost.
   */
  lemma TidyProperties(v: seq<string>, clean: string -> string, keep: string -> bool, cap: nat)
    ensures var r := Tidy(v, clean, keep, cap);
      |r| <= cap && Distinct(r)
      && (forall k :: 0 <= k < |r| ==> keep(r[k]) && exists i :: 0 <= i < |v| && r[k] == clean(v[i]))
      && (forall a, b :: 0 <= a < b < |r| ==>
            IndexOf(Cleaned(v, clean, keep), r[a]) < IndexOf(Cleaned(v, clean, keep), r[b]))
  {
    var c := Cleaned(v, clean, keep);
    var d := Dedupe(c);
    var r := Tidy(v, clean, keep, cap);
    DedupeUnique(c);
    DistinctPrefix(d, cap);
    DedupeOrder(c);
    forall k | 0 <= k < |r|
      ensures keep(r[k]) && exists i :: 0 <= i < |v| && r[k] == clean(v[i])
    {
      assert r[k] == d[k] && d[k] in c;
      var j :| 0 <= j < |c| && c[j] == d[k];
      CleanedSound(v, clean, keep, j);
    }
    forall a, b | 0 <= a < b < |r|
      ensures IndexOf(c, r[a]) < IndexOf(c, r[b])
    {
      assert r[a] == d[a] && r[b] == d[b];
    }
  }

  /** When at most `cap` distinct entries survive, every entry whose cleaned form is kept appears. */
  lemma TidyComplete(v: seq<string>, clean: string -> string, keep: string -> bool, cap: nat, i: nat)
    requires i < |v| && keep(clean(v[i]))
    requires |Dedupe(Cleaned(v, clean, keep))| <= cap
    ensures clean(v[i]) in Tidy(v, clean, keep, cap)
  {
    CleanedComplete(v, clean, keep, i);
    DedupeMembers(Cleaned(v, clean, keep), clean(v[i]));
  }

  /** Cleaning a list whose entries are all clean and kept leaves it as it is. */
  lemma TidyIdempotent(v: seq<string>, clean: string -> string, keep: string -> bool, cap: nat)
    requires var r := Tidy(v, clean, keep, cap);
      forall k :: 0 <= k < |r| ==> clean(r[k]) == r[k]
    ensures Tidy(Tidy(v, clean, keep, cap), clean, keep, cap) == Tidy(v, clean, keep, cap)
  {
    var r := Tidy(v, clean, keep, cap);
    TidyProperties(v, clean, keep, cap);
    CleanedFixed(r, clean, keep);
    DedupeDistinct(r);
  }
}
