/** Splitting a string at a delimiter, as the source does it: first match, cut, repeat. */
module TextUtils {
  import opened Wrappers

  predicate OccursAt(s: string, d: string, k: nat) {
    k + |d| <= |s| && forall i :: 0 <= i < |d| ==> s[k + i] == d[i]
  }

  predicate IsFirst(s: string, d: string, k: nat) {
    OccursAt(s, d, k) && forall j: nat :: j < k ==> !OccursAt(s, d, j)
  }

  predicate Occurs(s: string, d: string) {
    exists k: nat :: k <= |s| && OccursAt(s, d, k)
  }

  /** std::string_view::find, looking from position `from` on. */
  function FindFrom(s: string, d: string, from: nat): (r: Option<nat>)
    requires from <= |s|
    ensures r.Some? ==> from <= r.value && OccursAt(s, d, r.value)
    decreases |s| - from
  {
    if OccursAt(s, d, from) then Some(from)
    else if from == |s| then None
    else FindFrom(s, d, from + 1)
  }

  function Find(s: string, d: string): (r: Option<nat>)
    ensures r.Some? ==> OccursAt(s, d, r.value)
  {
    FindFrom(s, d, 0)
  }

  lemma {:induction false} FindFromSkips(s: string, d: string, from: nat, j: nat)
    requires from <= j && OccursAt(s, d, j)
    ensures FindFrom(s, d, from).Some? && FindFrom(s, d, from).value <= j
    decreases |s| - from
  {
    if !OccursAt(s, d, from) { FindFromSkips(s, d, from + 1, j); }
  }

  /** Finding finds the first occurrence, if there is one. */
  lemma {:induction false} FindIsFirst(s: string, d: string)
    ensures Find(s, d).Some? <==> Occurs(s, d)
    ensures Find(s, d).Some? ==> IsFirst(s, d, Find(s, d).value)
  {
    forall j: nat | OccursAt(s, d, j)
      ensures Find(s, d).Some? && Find(s, d).value <= j
    {
      FindFromSkips(s, d, 0, j);
    }
  }

  /** The parts of `s` between the left-to-right matches of `d`. */
  function Split(s: string, d: string): (parts: seq<string>)
    requires d != ""
    ensures parts != []
    decreases |s|
  {
    match Find(s, d)
    case None => [s]
    case Some(k) => [s[..k]] + Split(s[k + |d|..], d)
  }

  function Join(parts: seq<string>, d: string): string {
    if parts == [] then ""
    else if |parts| == 1 then parts[0]
    else parts[0] + d + Join(parts[1..], d)
  }

  /** The loop of the source; for a non-empty delimiter it terminates. */
  method SplitString(str: string, delimiter: string) returns (result: seq<string>)
    requires delimiter != ""
    ensures result == Split(str, delimiter)
  {
    result := [];
    var rest := str;
    var pos := Find(rest, delimiter);
    while pos.Some?
      invariant pos == Find(rest, delimiter)
      invariant Split(str, delimiter) == result + Split(rest, delimiter)
      decreases |rest|
    {
      result := result + [rest[..pos.value]];
      rest := rest[pos.value + |delimiter|..];
      pos := Find(rest, delimiter);
    }
    result := result + [rest];
  }

  function LastPart(s: string, d: string): string
    requires d != ""
  {
    Split(s, d)[|Split(s, d)| - 1]
  }

  method LastPartOf(str: string, delimiter: string) returns (last: string)
    requires delimiter != ""
    ensures last == LastPart(str, delimiter)
  {
    var parts := SplitString(str, delimiter);
    last := parts[|parts| - 1];
  }

  /** Nothing is lost: joining the parts gives back the string. */
  lemma {:induction false} JoinSplit(s: string, d: string)
    requires d != ""
    ensures Join(Split(s, d), d) == s
    decreases |s|
  {
    match Find(s, d) {
      case None =>
      case Some(k) =>
        var rest := Split(s[k + |d|..], d);
        JoinSplit(s[k + |d|..], d);
        assert ([s[..k]] + rest)[1..] == rest;
        assert s == s[..k] + d + s[k + |d|..];
    }
  }

  /** A part followed by the delimiter: only what overlaps the part can match earlier. */
  lemma {:induction false} FirstInContext(p: string, d: string, rest: string)
    ensures IsFirst(p + d + rest, d, |p|) <==> IsFirst(p + d, d, |p|)
  {
    forall j: nat | j <= |p|
      ensures OccursAt(p + d + rest, d, j) <==> OccursAt(p + d, d, j)
    {
      assert (p + d + rest)[j..j + |d|] == (p + d)[j..j + |d|];
    }
  }

  lemma {:induction false} FirstIsFound(s: string, d: string, k: nat)
    requires IsFirst(s, d, k)
    ensures Find(s, d) == Some(k)
  {
    FindIsFirst(s, d);
    assert k <= |s|;
  }

  /** The lists of parts that splitting can produce. */
  predicate SplitForm(parts: seq<string>, d: string) {
    && parts != []
    && (forall i :: 0 <= i < |parts| - 1 ==> IsFirst(parts[i] + d, d, |parts[i]|))
    && !Occurs(parts[|parts| - 1], d)
  }

  /** One more part in front. */
  lemma {:induction false} FormCons(p: string, rest: seq<string>, d: string)
    requires SplitForm(rest, d) && IsFirst(p + d, d, |p|)
    ensures SplitForm([p] + rest, d)
  {
    var parts := [p] + rest;
    forall i | 0 <= i < |parts| - 1
      ensures IsFirst(parts[i] + d, d, |parts[i]|)
    {
      if i > 0 { assert parts[i] == rest[i - 1]; }
    }
    assert parts[|parts| - 1] == rest[|rest| - 1];
  }

  /** The string before the first match is a part that the match follows. */
  lemma {:induction false} FirstPart(s: string, d: string, k: nat)
    requires IsFirst(s, d, k)
    ensures IsFirst(s[..k] + d, d, k)
  {
    assert s == s[..k] + d + s[k + |d|..];
    FirstInContext(s[..k], d, s[k + |d|..]);
  }

  lemma {:induction false} SplitNone(s: string, d: string)
    requires d != "" && Find(s, d) == None
    ensures Split(s, d) == [s]
  {
  }

  lemma {:induction false} SplitSome(s: string, d: string, k: nat)
    requires d != "" && Find(s, d) == Some(k)
    ensures Split(s, d) == [s[..k]] + Split(s[k + |d|..], d)
  {
  }

  lemma {:induction false} FoundPart(s: string, d: string, k: nat)
    requires Find(s, d) == Some(k)
    ensures IsFirst(s[..k] + d, d, k)
  {
    FindIsFirst(s, d);
    FirstPart(s, d, k);
  }

  lemma {:induction false} WholePart(s: string, d: string)
    requires Find(s, d) == None
    ensures SplitForm([s], d)
  {
    FindIsFirst(s, d);
  }

  /** Every splitting has that form. */
  lemma {:induction false} SplitHasForm(s: string, d: string)
    requires d != ""
    ensures SplitForm(Split(s, d), d)
    decreases |s|
  {
    match Find(s, d) {
      case None =>
        SplitNone(s, d);
        WholePart(s, d);
      case Some(k) =>
        SplitHasForm(s[k + |d|..], d);
        SplitSome(s, d, k);
        FoundPart(s, d, k);
        FormCons(s[..k], Split(s[k + |d|..], d), d);
    }
  }

  /** A part in front of a joined string is the first one cut off again. */
  lemma {:induction false} CutFirst(p: string, d: string, rest: string)
    requires d != "" && IsFirst(p + d, d, |p|)
    ensures Find(p + d + rest, d) == Some(|p|)
  {
    FirstInContext(p, d, rest);
    FirstIsFound(p + d + rest, d, |p|);
  }

  lemma {:induction false} Slices(p: string, d: string, rest: string)
    ensures (p + d + rest)[..|p|] == p && (p + d + rest)[|p| + |d|..] == rest
  {
  }

  lemma {:induction false} FormRest(parts: seq<string>, d: string)
    requires SplitForm(parts, d) && |parts| > 1
    ensures SplitForm(parts[1..], d) && IsFirst(parts[0] + d, d, |parts[0]|)
  {
    assert forall i :: 0 <= i < |parts[1..]| ==> parts[1..][i] == parts[i + 1];
  }

  lemma {:induction false} OnePart(s: string, d: string)
    requires d != "" && SplitForm([s], d)
    ensures Split(s, d) == [s]
  {
    FindIsFirst(s, d);
    SplitNone(s, d);
  }

  /** One more part in front of a joined string comes off again as the first part of the splitting. */
  lemma {:induction false} SplitCons(p: string, d: string, rest: string, tail: seq<string>)
    requires d != "" && IsFirst(p + d, d, |p|) && tail == Split(rest, d)
    ensures Split(p + d + rest, d) == [p] + tail
  {
    CutFirst(p, d, rest);
    Slices(p, d, rest);
    SplitSome(p + d + rest, d, |p|);
  }

  lemma {:induction false} JoinCons(p: string, tail: seq<string>, d: string)
    requires tail != []
    ensures Join([p] + tail, d) == p + d + Join(tail, d)
  {
    assert ([p] + tail)[1..] == tail;
  }

  /** And every list of that form comes back from its joined string. */
  lemma {:induction false} SplitJoin(parts: seq<string>, d: string)
    requires d != "" && SplitForm(parts, d)
    ensures Split(Join(parts, d), d) == parts
    decreases |parts|
  {
    var p, tail := parts[0], parts[1..];
    if |parts| == 1 {
      assert parts == [p];
      OnePart(p, d);
    } else {
      FormRest(parts, d);
      SplitJoin(tail, d);
      SplitCons(p, d, Join(tail, d), tail);
      JoinCons(p, tail, d);
      assert parts == [p] + tail;
    }
  }

  /** Splitting undoes joining exactly for the lists of that form. */
  lemma {:induction false} SplitJoinExactly(parts: seq<string>, d: string)
    requires d != ""
    ensures Split(Join(parts, d), d) == parts <==> SplitForm(parts, d)
  {
    SplitHasForm(Join(parts, d), d);
    if SplitForm(parts, d) { SplitJoin(parts, d); }
  }

  /** The last of several joined parts comes at the end, after a delimiter. */
  lemma {:induction false} JoinEnds(parts: seq<string>, d: string) returns (front: string)
    requires |parts| > 1
    ensures Join(parts, d) == front + d + parts[|parts| - 1]
    decreases |parts|
  {
    front := parts[0];
    if |parts| > 2 {
      var later := JoinEnds(parts[1..], d);
      front := parts[0] + d + later;
      Regroup(parts[0], d, later, parts[|parts| - 1]);
    }
  }

  lemma {:induction false} Regroup(p: string, d: string, later: string, last: string)
    ensures p + d + (later + d + last) == p + d + later + d + last
  {
  }

  /** The string is cut at all exactly if the delimiter occurs. */
  lemma {:induction false} CutIfOccurs(s: string, d: string)
    requires d != ""
    ensures |Split(s, d)| == 1 <==> !Occurs(s, d)
  {
    FindIsFirst(s, d);
    match Find(s, d) {
      case None => SplitNone(s, d);
      case Some(k) => SplitSome(s, d, k);
    }
  }

  /**
   The last part is the end of the string: what follows a delimiter if the delimiter occurs, and
   the whole string if not.
   */
  lemma {:induction false} LastPartIsRest(s: string, d: string) returns (front: string)
    requires d != ""
    ensures if Occurs(s, d) then s == front + d + LastPart(s, d) else LastPart(s, d) == s
  {
    JoinSplit(s, d);
    CutIfOccurs(s, d);
    front := "";
    if |Split(s, d)| > 1 {
      front := JoinEnds(Split(s, d), d);
    }
  }

  /** And the delimiter does not occur in it. */
  lemma {:induction false} LastPartIsClean(s: string, d: string)
    requires d != ""
    ensures !Occurs(LastPart(s, d), d)
  {
    SplitHasForm(s, d);
  }

  /**
   Which end it is, when matches overlap: the last part of the one list of parts that joins to the
   string and in which each match is the first one from where its part begins.
   */
  lemma {:induction false} LastPartExactly(s: string, d: string, parts: seq<string>)
    requires d != "" && SplitForm(parts, d) && Join(parts, d) == s
    ensures parts == Split(s, d) && LastPart(s, d) == parts[|parts| - 1]
  {
    SplitJoin(parts, d);
  }

  /** In "a:::b", "::" is found once, and what is left is ":b". */
  lemma {:induction false} OverlappingMatch()
    ensures LastPart("a:::b", "::") == ":b"
  {
    var parts := ["a", ":b"];
    assert Join(parts[1..], "::") == ":b";
    assert ("a" + "::")[0 + 0] != "::"[0];
    assert ":b"[0 + 1] != "::"[1];
    assert "a" + "::" + ":b" == "a:::b";
    LastPartExactly("a:::b", "::", parts);
  }
}
