/** Parts laid out one after the other in a text, as `parts.join(separator)` does it. */
module Layout {
  ghost predicate StandsAt<T>(text: seq<T>, offset: nat, part: seq<T>) {
    offset + |part| <= |text| && text[offset..offset + |part|] == part
  }

  /** Part k stands at its offset, which for the first is the very beginning; between it and the part before stands
      the separator and nothing else. */
  ghost predicate InPlace<T>(text: seq<T>, parts: seq<seq<T>>, separator: seq<T>, at: seq<nat>, k: nat)
    requires |at| == |parts| && k < |at|
  {
    && StandsAt(text, at[k], parts[k])
    && (if k == 0 then at[k] == 0
        else
          && at[k] == at[k - 1] + |parts[k - 1]| + |separator|
          && StandsAt(text, at[k - 1] + |parts[k - 1]|, separator))
  }

  /** All parts are in place, and the last one ends the text. */
  ghost predicate LaidOut<T>(text: seq<T>, parts: seq<seq<T>>, separator: seq<T>, at: seq<nat>) {
    && |at| == |parts|
    && (forall k :: 0 <= k < |at| ==> InPlace(text, parts, separator, at, k))
    && |text| == if at == [] then 0 else at[|at| - 1] + |parts[|at| - 1]|
  }

  ghost predicate Joined<T>(text: seq<T>, parts: seq<seq<T>>, separator: seq<T>) {
    exists at :: LaidOut(text, parts, separator, at)
  }

  lemma NoPart<T>(separator: seq<T>)
    ensures Joined([], [], separator)
  {
    assert LaidOut([], [], separator, []);
  }

  lemma OnePart<T>(part: seq<T>, separator: seq<T>)
    ensures Joined(part, [part], separator)
  {
    assert LaidOut(part, [part], separator, [0]);
  }

  function Shifted(at: seq<nat>, shift: nat): (s: seq<nat>)
    ensures |s| == |at| && forall k :: 0 <= k < |at| ==> s[k] == at[k] + shift
  {
    seq(|at|, k requires 0 <= k < |at| => at[k] + shift)
  }

  lemma StandsLater<T>(front: seq<T>, rest: seq<T>, offset: nat, part: seq<T>)
    requires StandsAt(rest, offset, part)
    ensures StandsAt(front + rest, offset + |front|, part)
  {
  }

  lemma StandsInFront<T>(part: seq<T>, separator: seq<T>, rest: seq<T>)
    ensures StandsAt(part + separator + rest, 0, part) && StandsAt(part + separator + rest, |part|, separator)
  {
  }

  /** A part and a separator in front. */
  lemma OneMorePart<T>(part: seq<T>, rest: seq<T>, parts: seq<seq<T>>, separator: seq<T>)
    requires parts != [] && Joined(rest, parts, separator)
    ensures Joined(part + separator + rest, [part] + parts, separator)
  {
    hide StandsAt;
    var at :| LaidOut(rest, parts, separator, at);
    var text, front := part + separator + rest, part + separator;
    var all, more := [0] + Shifted(at, |front|), [part] + parts;
    StandsInFront(part, separator, rest);
    assert InPlace(text, more, separator, all, 0);
    forall k | 0 < k < |all|
      ensures InPlace(text, more, separator, all, k)
    {
      MovedInPlace(front, rest, parts, separator, at, k - 1);
      if k > 1 {
        assert all[k - 1] == at[k - 2] + |front| && more[k - 1] == parts[k - 2];
      }
    }
    assert LaidOut(text, more, separator, all);
  }

  lemma MovedInPlace<T>(front: seq<T>, rest: seq<T>, parts: seq<seq<T>>, separator: seq<T>, at: seq<nat>, k: nat)
    requires |at| == |parts| && k < |at| && InPlace(rest, parts, separator, at, k)
    ensures StandsAt(front + rest, at[k] + |front|, parts[k])
    ensures k > 0 ==>
      && at[k] == at[k - 1] + |parts[k - 1]| + |separator|
      && StandsAt(front + rest, at[k - 1] + |front| + |parts[k - 1]|, separator)
  {
    hide StandsAt;
    StandsLater(front, rest, at[k], parts[k]);
    if k > 0 {
      StandsLater(front, rest, at[k - 1] + |parts[k - 1]|, separator);
    }
  }

  lemma SameFurther<T>(text: seq<T>, other: seq<T>, offset: nat, part: seq<T>)
    requires StandsAt(text, offset, part) && StandsAt(other, offset, part) && text[..offset] == other[..offset]
    ensures text[..offset + |part|] == other[..offset + |part|]
  {
    assert text[..offset + |part|] == text[..offset] + part;
    assert other[..offset + |part|] == other[..offset] + part;
  }

  lemma Within<T>(text: seq<T>, offset: nat, part: seq<T>)
    requires StandsAt(text, offset, part)
    ensures offset + |part| <= |text|
  {
  }

  lemma {:induction false} SamePrefix<T>(text: seq<T>, other: seq<T>, parts: seq<seq<T>>, separator: seq<T>, at: seq<nat>, bt: seq<nat>, k: nat)
    requires LaidOut(text, parts, separator, at) && LaidOut(other, parts, separator, bt) && k < |parts|
    ensures at[k] == bt[k] && at[k] + |parts[k]| <= |text| && at[k] + |parts[k]| <= |other|
    ensures text[..at[k] + |parts[k]|] == other[..at[k] + |parts[k]|]
  {
    hide StandsAt;
    assert InPlace(text, parts, separator, at, k) && InPlace(other, parts, separator, bt, k);
    Within(text, at[k], parts[k]);
    Within(other, bt[k], parts[k]);
    if k > 0 {
      SamePrefix(text, other, parts, separator, at, bt, k - 1);
      SameFurther(text, other, at[k - 1] + |parts[k - 1]|, separator);
    }
    SameFurther(text, other, at[k], parts[k]);
  }

  /** The layout leaves no choice: the parts and the separator determine the text. */
  lemma JoinedIsUnique<T>(text: seq<T>, other: seq<T>, parts: seq<seq<T>>, separator: seq<T>)
    requires Joined(text, parts, separator) && Joined(other, parts, separator)
    ensures text == other
  {
    hide StandsAt;
    var at :| LaidOut(text, parts, separator, at);
    var bt :| LaidOut(other, parts, separator, bt);
    if parts != [] {
      SamePrefix(text, other, parts, separator, at, bt, |parts| - 1);
      assert text == text[..|text|] && other == other[..|other|];
    }
  }
}
