/** The display helpers of client/lib/utils.ts: `truncateText` and `getObjectBadges`. */
module Utils {
  import opened Records
  import opened Text

  /** `truncateText(text, maxLength)`: the text itself when it fits, otherwise
      `text.slice(0, maxLength)` followed by an ellipsis. A negative `maxLength`
      counts from the end, as `slice` does. */
  function TruncateText(text: string, maxLength: int): (r: string)
    ensures |text| <= maxLength ==> r == text
    ensures 0 <= maxLength < |text| ==> r == text[..maxLength] + "..." && |r| == maxLength + 3
    ensures maxLength < 0 && |text| > 0 ==>
      r == text[..if |text| + maxLength < 0 then 0 else |text| + maxLength] + "..."
  {
    if |text| <= maxLength then text else Slice(text, 0, maxLength) + "..."
  }

  /** Whatever the limit, the result starts with the first `min(|text|, maxLength)`
      characters of the text, and it is no longer than the text or `maxLength + 3`. */
  lemma TruncateKeepsPrefix(text: string, maxLength: int)
    requires maxLength >= 0
    ensures var m := if |text| <= maxLength then |text| else maxLength;
      var r := TruncateText(text, maxLength);
      m <= |r| && r[..m] == text[..m]
    ensures |TruncateText(text, maxLength)| <= if |text| <= maxLength then |text| else maxLength + 3
  {
  }

  /** Truncating an already truncated text with the same non-negative limit changes
      nothing: the ellipsis sits past the limit, so the second call keeps the same
      prefix and adds the same ellipsis. */
  lemma TruncateIdempotent(text: string, maxLength: int)
    requires maxLength >= 0
    ensures TruncateText(TruncateText(text, maxLength), maxLength) == TruncateText(text, maxLength)
  {
    var r := TruncateText(text, maxLength);
    if maxLength < |text| {
      assert r[..maxLength] == text[..maxLength];
    }
  }

  /** One entry of the badge list: a class name and how many detections carry it. */
  datatype Badge = Badge(title: string, count: nat)

  /** The class names of the detections, in list order. */
  function Classes(objects: seq<DetectedObject>): (cs: seq<string>)
    ensures |cs| == |objects|
    ensures forall i :: 0 <= i < |objects| ==> cs[i] == objects[i].className
  {
    seq(|objects|, i requires 0 <= i < |objects| => objects[i].className)
  }

  /** How many times `c` occurs in `cs`. */
  function Occurrences(cs: seq<string>, c: string): nat
    decreases |cs|
  {
    if cs == [] then 0
    else Occurrences(cs[..|cs| - 1], c) + (if cs[|cs| - 1] == c then 1 else 0)
  }

  /** The distinct elements of `cs`, each where it first occurs. */
  function FirstOccurrences(cs: seq<string>): seq<string>
    decreases |cs|
  {
    if cs == [] then []
    else
      var init := FirstOccurrences(cs[..|cs| - 1]);
      if cs[|cs| - 1] in init then init else init + [cs[|cs| - 1]]
  }

  /** One badge per title of `titles`, counting that title in `cs`. */
  function BadgesFor(titles: seq<string>, cs: seq<string>): (r: seq<Badge>)
    ensures |r| == |titles|
    ensures forall i :: 0 <= i < |r| ==> r[i] == Badge(titles[i], Occurrences(cs, titles[i]))
    decreases |titles|
  {
    if titles == [] then []
    else
      var t := titles[|titles| - 1];
      BadgesFor(titles[..|titles| - 1], cs) + [Badge(t, Occurrences(cs, t))]
  }

  /** What `getObjectBadges` computes: one badge per distinct class, in the order the
      classes first appear, with the number of detections of that class. */
  function ObjectBadges(objects: seq<DetectedObject>): seq<Badge>
  {
    var cs := Classes(objects);
    BadgesFor(FirstOccurrences(cs), cs)
  }

  /** `getObjectBadges(detectedObjects)`: folds the detections into a dictionary of
      counts keyed by class (`keys` keeps the dictionary's insertion order), then
      maps its entries to badges. */
  method GetObjectBadges(detectedObjects: seq<DetectedObject>) returns (badges: seq<Badge>)
    ensures badges == ObjectBadges(detectedObjects)
  {
    ghost var cs := Classes(detectedObjects);
    var acc: map<string, nat> := map[];
    var keys: seq<string> := [];
    var i := 0;
    while i < |detectedObjects|
      invariant 0 <= i <= |detectedObjects|
      invariant Tally(acc, keys, cs[..i])
    {
      var c := detectedObjects[i].className;
      assert cs[..i + 1] == cs[..i] + [c];
      TallyStep(acc, keys, cs[..i], c);
      var previous := if c in acc then acc[c] else 0;
      if c !in acc {
        keys := keys + [c];
      }
      acc := acc[c := previous + 1];
      i := i + 1;
    }
    assert cs[..i] == cs;
    badges := [];
    var j := 0;
    while j < |keys|
      invariant 0 <= j <= |keys|
      invariant badges == BadgesFor(keys[..j], cs)
    {
      assert keys[..j + 1][..j] == keys[..j];
      badges := badges + [Badge(keys[j], acc[keys[j]])];
      j := j + 1;
    }
    assert keys[..j] == keys;
  }

  /** The loop state of `getObjectBadges` after the classes `cs`: `keys` lists the
      classes seen, in first-occurrence order, and `acc` counts each of them. */
  ghost predicate Tally(acc: map<string, nat>, keys: seq<string>, cs: seq<string>)
  {
    && keys == FirstOccurrences(cs)
    && (forall c :: c in acc <==> c in keys)
    && (forall c :: c in acc ==> acc[c] == Occurrences(cs, c))
  }

  /** One more detection: its class is counted once more and, if new, listed last. */
  lemma TallyStep(acc: map<string, nat>, keys: seq<string>, cs: seq<string>, c: string)
    requires Tally(acc, keys, cs)
    ensures Tally(acc[c := (if c in acc then acc[c] else 0) + 1], if c in acc then keys else keys + [c], cs + [c])
  {
    AppendClass(cs, c);
    FirstOccurrencesMembership(cs);
    OccurrencesZero(cs, c);
  }

  /** Appending one class counts it once more and makes it a title if it was not. */
  lemma AppendClass(cs: seq<string>, c: string)
    ensures forall d :: Occurrences(cs + [c], d) == Occurrences(cs, d) + (if d == c then 1 else 0)
    ensures FirstOccurrences(cs + [c]) == if c in FirstOccurrences(cs) then FirstOccurrences(cs) else FirstOccurrences(cs) + [c]
  {
    assert (cs + [c])[..|cs|] == cs;
  }

  /** A class occurs zero times exactly when it is absent. */
  lemma {:induction false} OccurrencesZero(cs: seq<string>, c: string)
    ensures Occurrences(cs, c) == 0 <==> c !in cs
    decreases |cs|
  {
    if cs != [] {
      var init := cs[..|cs| - 1];
      OccurrencesZero(init, c);
      assert cs == init + [cs[|cs| - 1]];
    }
  }

  /** A class is a title exactly when some detection has it. */
  lemma {:induction false} FirstOccurrencesMembership(cs: seq<string>)
    ensures forall c :: c in FirstOccurrences(cs) <==> c in cs
    decreases |cs|
  {
    if cs != [] {
      var init := cs[..|cs| - 1];
      FirstOccurrencesMembership(init);
      assert cs == init + [cs[|cs| - 1]];
    }
  }

  /** No element of `s` occurs twice. */
  predicate Distinct(s: seq<string>)
  {
    forall i, j :: 0 <= i < j < |s| ==> s[i] != s[j]
  }

  /** No class appears twice among the titles. */
  lemma {:induction false} FirstOccurrencesDistinct(cs: seq<string>)
    ensures Distinct(FirstOccurrences(cs))
    decreases |cs|
  {
    if cs != [] {
      var fi := FirstOccurrences(cs[..|cs| - 1]);
      var fo := FirstOccurrences(cs);
      var x := cs[|cs| - 1];
      FirstOccurrencesDistinct(cs[..|cs| - 1]);
      if x !in fi {
        assert fo == fi + [x];
        forall i, j | 0 <= i < j < |fo|
          ensures fo[i] != fo[j]
        {
          assert fo[i] == fi[i];
          if j < |fi| {
            assert fo[j] == fi[j];
          } else {
            assert fi[i] in fi;
          }
        }
      } else {
        assert fo == fi;
      }
    }
  }

  /** The position of the first occurrence of `c` in `cs`. */
  function FirstIndex(cs: seq<string>, c: string): (k: nat)
    requires c in cs
    ensures k < |cs| && cs[k] == c && c !in cs[..k]
    decreases |cs|
  {
    if cs[0] == c then 0
    else
      var k := FirstIndex(cs[1..], c);
      assert cs[..k + 1] == [cs[0]] + cs[1..][..k];
      k + 1
  }

  /** A position holding `c` with no `c` before it is the first index of `c`. */
  lemma FirstIndexUnique(cs: seq<string>, c: string, k: nat)
    requires k < |cs| && cs[k] == c && c !in cs[..k]
    ensures FirstIndex(cs, c) == k
  {
  }

  /** A first occurrence found in a prefix is the first occurrence in the whole. */
  lemma FirstIndexOfPrefix(cs: seq<string>, n: nat, c: string)
    requires n <= |cs| && c in cs[..n]
    ensures c in cs && FirstIndex(cs, c) == FirstIndex(cs[..n], c)
  {
    var k := FirstIndex(cs[..n], c);
    assert cs[..n][k] == cs[k];
    assert cs[..n][..k] == cs[..k];
    FirstIndexUnique(cs, c, k);
  }

  /** Titles appear in the order their classes first occur in the detections. */
  lemma {:induction false} FirstOccurrencesOrdered(cs: seq<string>)
    ensures var fo := FirstOccurrences(cs);
      forall c :: c in fo ==> c in cs
    ensures var fo := FirstOccurrences(cs);
      forall i, j :: 0 <= i < j < |fo| ==> FirstIndex(cs, fo[i]) < FirstIndex(cs, fo[j])
    decreases |cs|
  {
    FirstOccurrencesMembership(cs);
    if cs != [] {
      var n := |cs| - 1;
      var init := cs[..n];
      var fo := FirstOccurrences(cs);
      var fi := FirstOccurrences(init);
      FirstOccurrencesOrdered(init);
      FirstOccurrencesMembership(init);
      forall i, j | 0 <= i < j < |fo|
        ensures FirstIndex(cs, fo[i]) < FirstIndex(cs, fo[j])
      {
        assert fo[i] == fi[i];
        FirstIndexOfPrefix(cs, n, fo[i]);
        if j < |fi| {
          assert fo[j] == fi[j];
          FirstIndexOfPrefix(cs, n, fo[j]);
        } else {
          assert fo[j] == cs[n] && cs[n] !in init;
          assert cs[..n] == init;
          assert FirstIndex(cs, fo[j]) == n;
        }
      }
    }
  }

  /** The sum of the counts of a badge list. */
  function TotalCount(badges: seq<Badge>): nat
    decreases |badges|
  {
    if badges == [] then 0 else TotalCount(badges[..|badges| - 1]) + badges[|badges| - 1].count
  }

  /** One more detection of class `x` adds one to the total of any list of distinct
      titles that contains `x`, and nothing otherwise. */
  lemma {:induction false} TotalCountSnoc(titles: seq<string>, cs: seq<string>, x: string)
    requires Distinct(titles)
    ensures TotalCount(BadgesFor(titles, cs + [x]))
      == TotalCount(BadgesFor(titles, cs)) + (if x in titles then 1 else 0)
    decreases |titles|
  {
    if titles != [] {
      var front := titles[..|titles| - 1];
      var t := titles[|titles| - 1];
      TotalCountSnoc(front, cs, x);
      assert (cs + [x])[..|cs|] == cs;
      assert titles == front + [t];
      assert x in titles <==> x in front || x == t;
      assert !(x in front && x == t);
    }
  }

  /** Each badge is the title at the same position of the first occurrences, with
      that title's count. */
  lemma ObjectBadgesShape(objects: seq<DetectedObject>, i: int)
    requires 0 <= i < |ObjectBadges(objects)|
    ensures var cs := Classes(objects);
      var fo := FirstOccurrences(cs);
      |fo| == |ObjectBadges(objects)| && ObjectBadges(objects)[i] == Badge(fo[i], Occurrences(cs, fo[i]))
  {
  }

  /** Every badge's count is the number of detections of its class, and at least one. */
  lemma ObjectBadgesCounts(objects: seq<DetectedObject>)
    ensures var b := ObjectBadges(objects);
      forall i :: 0 <= i < |b| ==> b[i].count == Occurrences(Classes(objects), b[i].title) >= 1
  {
    var cs := Classes(objects);
    var fo := FirstOccurrences(cs);
    var b := ObjectBadges(objects);
    FirstOccurrencesMembership(cs);
    forall i | 0 <= i < |b|
      ensures b[i].count == Occurrences(cs, b[i].title) >= 1
    {
      ObjectBadgesShape(objects, i);
      OccurrencesZero(cs, fo[i]);
    }
  }

  /** No two badges share a title, and the titles are exactly the classes present;
      no detections give no badges. */
  lemma ObjectBadgesTitles(objects: seq<DetectedObject>)
    ensures var b := ObjectBadges(objects);
      && (forall i, j :: 0 <= i < j < |b| ==> b[i].title != b[j].title)
      && (forall i :: 0 <= i < |objects| ==> exists k :: 0 <= k < |b| && b[k].title == objects[i].className)
      && (forall k :: 0 <= k < |b| ==> exists i :: 0 <= i < |objects| && b[k].title == objects[i].className)
      && (objects == [] ==> b == [])
  {
    var cs := Classes(objects);
    var fo := FirstOccurrences(cs);
    var b := ObjectBadges(objects);
    FirstOccurrencesMembership(cs);
    FirstOccurrencesDistinct(cs);
    forall i, j | 0 <= i < j < |b|
      ensures b[i].title != b[j].title
    {
      ObjectBadgesShape(objects, i);
      ObjectBadgesShape(objects, j);
    }
    forall i | 0 <= i < |objects|
      ensures exists k :: 0 <= k < |b| && b[k].title == objects[i].className
    {
      assert cs[i] in fo;
      var k :| 0 <= k < |fo| && fo[k] == cs[i];
      ObjectBadgesShape(objects, k);
    }
    forall k | 0 <= k < |b|
      ensures exists i :: 0 <= i < |objects| && b[k].title == objects[i].className
    {
      ObjectBadgesShape(objects, k);
      assert fo[k] in cs;
      var i :| 0 <= i < |cs| && cs[i] == fo[k];
      assert b[k].title == objects[i].className;
    }
  }

  /** The counts add up to the number of detections. */
  lemma {:induction false} ObjectBadgesTotal(cs: seq<string>)
    ensures TotalCount(BadgesFor(FirstOccurrences(cs), cs)) == |cs|
    decreases |cs|
  {
    if cs != [] {
      var init := cs[..|cs| - 1];
      var x := cs[|cs| - 1];
      var fi := FirstOccurrences(init);
      ObjectBadgesTotal(init);
      FirstOccurrencesDistinct(init);
      assert cs == init + [x];
      TotalCountSnoc(fi, init, x);
      if x !in fi {
        FirstOccurrencesMembership(init);
        OccurrencesZero(init, x);
        var fo := fi + [x];
        assert fo[..|fo| - 1] == fi;
        assert BadgesFor(fo, cs) == BadgesFor(fi, cs) + [Badge(x, Occurrences(cs, x))];
      }
    }
  }

  /** The badge counts of a detection list add up to its length. */
  lemma ObjectBadgesSum(objects: seq<DetectedObject>)
    ensures TotalCount(ObjectBadges(objects)) == |objects|
  {
    ObjectBadgesTotal(Classes(objects));
  }

  /** The titles follow the first appearance of each class in the detections. */
  lemma ObjectBadgesOrder(objects: seq<DetectedObject>)
    ensures var b := ObjectBadges(objects);
      var cs := Classes(objects);
      forall i, j :: 0 <= i < j < |b| ==>
        b[i].title in cs && b[j].title in cs && FirstIndex(cs, b[i].title) < FirstIndex(cs, b[j].title)
  {
    var cs := Classes(objects);
    var b := ObjectBadges(objects);
    FirstOccurrencesOrdered(cs);
    forall i, j | 0 <= i < j < |b|
      ensures b[i].title in cs && b[j].title in cs && FirstIndex(cs, b[i].title) < FirstIndex(cs, b[j].title)
    {
      ObjectBadgesShape(objects, i);
      ObjectBadgesShape(objects, j);
    }
  }
}
