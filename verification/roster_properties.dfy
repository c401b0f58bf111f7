/** What the roster promises the start screen: one entry per table key,
    the first record seen for each key, ordinary tables before `u`-suffixed
    ones, each part ascending by table number with ties kept in feed order,
    and a roster that normalises to itself. */
module RosterProperties {
  import opened Options
  import opened Text
  import opened Sorting
  import opened Roster

  /** Every ordinary table comes before every `u`-suffixed one. */
  ghost predicate TwoTier(s: seq<Table>) {
    forall i, j :: 0 <= i < j < |s| && IsUpper(s[i].masaNo) ==> IsUpper(s[j].masaNo)
  }

  /** Within each group, table numbers never decrease. */
  ghost predicate OrderedWithinGroups(s: seq<Table>) {
    forall i, j :: 0 <= i < j < |s| && IsUpper(s[i].masaNo) == IsUpper(s[j].masaNo) ==>
      Num(s[i]) <= Num(s[j])
  }

  /** Entries of the same group with the same table number appear in the
      order the deduplicated feed lists them (the sort is stable). */
  ghost predicate KeepsTieOrder(s: seq<Table>, unique: seq<Table>) {
    forall upper: bool, n: nat ::
      WithKey(Num, Group(s, upper), n) == WithKey(Num, Group(unique, upper), n)
  }

  /** Each roster entry is the first record of the feed that carries its
      key, and no two entries share a key. */
  lemma NormalizeFirstOccurrence(raw: seq<Table>)
    ensures DistinctKeys(Normalize(raw))
    ensures |Normalize(raw)| == |KeysOf(raw)|
    ensures forall x :: x in Normalize(raw) ==>
      Key(x) in KeysOf(raw) && x == raw[FirstIndex(raw, Key(x))]
  {
    var d := Dedup(raw);
    NormalizeKeys(raw);
    forall x | x in Normalize(raw) ensures Key(x) in KeysOf(raw) && x == raw[FirstIndex(raw, Key(x))] {
      assert x in multiset(Normalize(raw));
      assert x in multiset(d);
      var j :| 0 <= j < |d| && d[j] == x;
    }
  }

  /** The roster is a rearrangement of the deduplicated feed. */
  lemma NormalizePermutes(raw: seq<Table>)
    ensures multiset(Normalize(raw)) == multiset(Dedup(raw))
    ensures |Normalize(raw)| == |Dedup(raw)|
  {
    NormalizeKeys(raw);
    assert |multiset(Normalize(raw))| == |multiset(Dedup(raw))|;
  }

  lemma SplitAt(s: seq<Table>, lower: seq<Table>, upper: seq<Table>)
    requires s == lower + upper
    requires forall x :: x in lower ==> !IsUpper(x.masaNo)
    requires forall x :: x in upper ==> IsUpper(x.masaNo)
    ensures TwoTier(s)
    ensures SortedBy(Num, lower) && SortedBy(Num, upper) ==> OrderedWithinGroups(s)
  {
    forall k | 0 <= k < |s|
      ensures k < |lower| ==> s[k] == lower[k] && !IsUpper(s[k].masaNo)
      ensures k >= |lower| ==> s[k] == upper[k - |lower|] && IsUpper(s[k].masaNo)
    {
      if k < |lower| { assert lower[k] in lower; } else { assert upper[k - |lower|] in upper; }
    }
  }

  /** Ordinary tables first, then `u`-suffixed ones; ascending table number
      within each group; ties in deduplicated-feed order. */
  lemma NormalizeOrder(raw: seq<Table>)
    ensures TwoTier(Normalize(raw))
    ensures OrderedWithinGroups(Normalize(raw))
    ensures KeepsTieOrder(Normalize(raw), Dedup(raw))
  {
    var d := Dedup(raw);
    SortedGroupUniform(d, false);
    SortedGroupUniform(d, true);
    SplitAt(Normalize(raw), SortBy(Num, Group(d, false)), SortBy(Num, Group(d, true)));
    GroupsOfNormalize(raw);
  }

  /** The number holds no digit, or there is no number at all. */
  ghost predicate Digitless(t: Table) {
    t.masaNo.None? || !HasDigit(t.masaNo.value)
  }

  /** Tables without digits close their group: anything after one in the
      same group is digitless too, or has a first digit run worth at least
      `MAX_SAFE_INTEGER`, which ties with it and so keeps feed order ("x"
      stays ahead of "99999999999999999" when the feed lists it first). */
  lemma DigitlessSortLast(raw: seq<Table>)
    ensures var r := Normalize(raw);
      forall i, j | 0 <= i < j < |r| && IsUpper(r[i].masaNo) == IsUpper(r[j].masaNo) && Digitless(r[i]) ::
        Digitless(r[j]) || Num(r[j]) >= MAX_SAFE_INTEGER
  {
    NormalizeOrder(raw);
  }

  lemma {:induction false} TwoTierSplits(s: seq<Table>)
    requires TwoTier(s)
    ensures s == Group(s, false) + Group(s, true)
    decreases |s|
  {
    if s != [] {
      if IsUpper(s[0].masaNo) {
        assert forall x :: x in s ==> IsUpper(x.masaNo) by {
          forall x | x in s ensures IsUpper(x.masaNo) {
            var j :| 0 <= j < |s| && s[j] == x;
            if j > 0 { assert IsUpper(s[0].masaNo); }
          }
        }
        GroupOfUniform(s, true);
      } else {
        TwoTierSplits(s[1..]);
        assert s == [s[0]] + s[1..];
      }
    }
  }

  /** In an arrangement ordered within groups, the head's number is at most
      that of every later entry of its group. */
  lemma HeadLeadsGroup(s: seq<Table>, x: Table)
    requires s != [] && OrderedWithinGroups(s)
    requires x in s[1..] && IsUpper(x.masaNo) == IsUpper(s[0].masaNo)
    ensures Num(s[0]) <= Num(x)
  {
    var k :| 0 <= k < |s[1..]| && s[1..][k] == x;
    assert s[k + 1] == x;
  }

  lemma {:induction false} GroupSorted(s: seq<Table>, upper: bool)
    requires OrderedWithinGroups(s)
    ensures SortedBy(Num, Group(s, upper))
    decreases |s|
  {
    if s != [] {
      assert OrderedWithinGroups(s[1..]) by {
        forall i, j | 0 <= i < j < |s[1..]| && IsUpper(s[1..][i].masaNo) == IsUpper(s[1..][j].masaNo)
          ensures Num(s[1..][i]) <= Num(s[1..][j])
        {
          assert s[1..][i] == s[i + 1] && s[1..][j] == s[j + 1];
        }
      }
      GroupSorted(s[1..], upper);
      var g := Group(s[1..], upper);
      if IsUpper(s[0].masaNo) == upper {
        GroupMembers(s[1..], upper);
        forall x | x in g ensures Num(s[0]) <= Num(x) {
          HeadLeadsGroup(s, x);
        }
        var r := [s[0]] + g;
        forall i, j | 0 <= i < j < |r| ensures Num(r[i]) <= Num(r[j]) {
          if i > 0 { assert r[i] == g[i - 1] && r[j] == g[j - 1]; } else { assert r[j] in g; }
        }
      }
    }
  }

  /** Two arrangements whose group `upper` is sorted and lists every
      table number's entries as the deduplicated feed does agree on that
      group. */
  lemma SameGroup(s: seq<Table>, t: seq<Table>, d: seq<Table>, upper: bool)
    requires OrderedWithinGroups(s) && OrderedWithinGroups(t)
    requires forall n: nat :: WithKey(Num, Group(s, upper), n) == WithKey(Num, Group(d, upper), n)
    requires forall n: nat :: WithKey(Num, Group(t, upper), n) == WithKey(Num, Group(d, upper), n)
    ensures Group(s, upper) == Group(t, upper)
  {
    GroupSorted(s, upper);
    GroupSorted(t, upper);
    SortedStableUnique(Num, Group(s, upper), Group(t, upper));
  }

  /** The ordering properties pin the roster down: any arrangement that
      puts ordinary tables first, sorts each group by table number and
      keeps ties in deduplicated-feed order IS the normalised roster. */
  lemma NormalizeIsUnique(raw: seq<Table>, s: seq<Table>)
    requires TwoTier(s) && OrderedWithinGroups(s)
    requires KeepsTieOrder(s, Dedup(raw))
    ensures s == Normalize(raw)
  {
    var d, r := Dedup(raw), Normalize(raw);
    NormalizeOrder(raw);
    SameGroup(s, r, d, false);
    SameGroup(s, r, d, true);
    TwoTierSplits(s);
    TwoTierSplits(r);
  }

  /** Normalising a roster again changes nothing. */
  lemma NormalizeIdempotent(raw: seq<Table>)
    ensures Normalize(Normalize(raw)) == Normalize(raw)
  {
    var d, r := Dedup(raw), Normalize(raw);
    NormalizeKeys(raw);
    DedupOfDistinct(r);
    GroupsOfNormalize(raw);
    SortSortedIsIdentity(Num, Group(r, false));
    SortSortedIsIdentity(Num, Group(r, true));
    NormalizeOrder(raw);
    TwoTierSplits(r);
  }

  /** The group test reads the table number as stored while the key trims
      it: a number typed with a trailing space, "2U ", keys as "2U" yet joins
      the ordinary tables. */
  lemma PaddedLabelStaysOrdinary(t: Table)
    requires t.masaNo == Some("2U ")
    ensures Key(t) == "2U" && !IsUpper(t.masaNo)
  {
    KeyIgnoresPadding(t.masaId, [], "2U", " ", t.masaTutar);
    assert [] + "2U" + " " == "2U ";
  }

  /** A worked feed: six tables labelled "3", "1", "2U", "10", "1U" and
      "x", whatever their ids and amounts. */
  ghost predicate IsExampleFeed(feed: seq<Table>) {
    && |feed| == 6
    && feed[0].masaNo == Some("3") && feed[1].masaNo == Some("1") && feed[2].masaNo == Some("2U")
    && feed[3].masaNo == Some("10") && feed[4].masaNo == Some("1U") && feed[5].masaNo == Some("x")
  }

  /** A table number without surrounding whitespace is the table's key. */
  lemma LabelIsKey(t: Table)
    requires t.masaNo.Some? && Trimmed(t.masaNo.value)
    ensures Key(t) == t.masaNo.value
  {
    TrimOfTrimmed(t.masaNo.value);
  }

  lemma ExampleKeysLow(a: Table, b: Table, c: Table)
    requires a.masaNo == Some("3") && b.masaNo == Some("1") && c.masaNo == Some("2U")
    ensures Key(a) == "3" && Key(b) == "1" && Key(c) == "2U"
  {
    LabelIsKey(a);
    LabelIsKey(b);
    LabelIsKey(c);
  }

  lemma ExampleKeysHigh(d: Table, e: Table, f: Table)
    requires d.masaNo == Some("10") && e.masaNo == Some("1U") && f.masaNo == Some("x")
    ensures Key(d) == "10" && Key(e) == "1U" && Key(f) == "x"
  {
    LabelIsKey(d);
    LabelIsKey(e);
    LabelIsKey(f);
  }

  lemma ExampleDistinct(feed: seq<Table>)
    requires |feed| == 6
    requires Key(feed[0]) == "3" && Key(feed[1]) == "1" && Key(feed[2]) == "2U"
    requires Key(feed[3]) == "10" && Key(feed[4]) == "1U" && Key(feed[5]) == "x"
    ensures DistinctKeys(feed)
  {
    forall i, j | 0 <= i < j < |feed| ensures Key(feed[i]) != Key(feed[j]) {
      assert i == 0 || i == 1 || i == 2 || i == 3 || i == 4;
      assert j == 1 || j == 2 || j == 3 || j == 4 || j == 5;
    }
  }

  lemma ExampleDedup(feed: seq<Table>)
    requires IsExampleFeed(feed)
    ensures Dedup(feed) == feed
  {
    ExampleKeysLow(feed[0], feed[1], feed[2]);
    ExampleKeysHigh(feed[3], feed[4], feed[5]);
    ExampleDistinct(feed);
    DedupOfDistinct(feed);
  }

  lemma ExampleGroup(a: Table, b: Table, c: Table, d: Table, e: Table, f: Table, upper: bool)
    requires !IsUpper(a.masaNo) && !IsUpper(b.masaNo) && IsUpper(c.masaNo)
    requires !IsUpper(d.masaNo) && IsUpper(e.masaNo) && !IsUpper(f.masaNo)
    ensures !upper ==> Group([a] + ([b] + ([c] + ([d] + ([e] + [f])))), upper) == [a] + ([b] + ([d] + [f]))
    ensures upper ==> Group([a] + ([b] + ([c] + ([d] + ([e] + [f])))), upper) == [c] + [e]
  {
    GroupCons(f, [], upper);
    assert [f] + [] == [f];
    GroupCons(e, [f], upper);
    GroupCons(d, [e] + [f], upper);
    GroupCons(c, [d] + ([e] + [f]), upper);
    GroupCons(b, [c] + ([d] + ([e] + [f])), upper);
    GroupCons(a, [b] + ([c] + ([d] + ([e] + [f]))), upper);
  }

  /** Sorting steps, stated on concatenations rather than displays. */
  lemma SortAfter<T>(key: T -> nat, x: T, y: T, s: seq<T>)
    requires SortBy(key, [y] + s) == [y] + s
    ensures SortBy(key, [x] + ([y] + s)) == InsertBy(key, x, [y] + s)
  {
    SortByCons(key, x, [y] + s);
  }

  lemma InsertPast<T>(key: T -> nat, x: T, y: T, s: seq<T>)
    requires key(y) < key(x)
    ensures InsertBy(key, x, [y] + s) == [y] + InsertBy(key, x, s)
  {
    InsertByCons(key, x, y, s);
  }

  lemma InsertBefore<T>(key: T -> nat, x: T, y: T, s: seq<T>)
    requires key(x) <= key(y)
    ensures InsertBy(key, x, [y] + s) == [x] + ([y] + s)
  {
    InsertByCons(key, x, y, s);
  }

  lemma SortOne<T>(key: T -> nat, x: T)
    ensures SortBy(key, [x]) == [x]
  {
    SortByCons(key, x, []);
    assert [x] + [] == [x];
  }

  lemma SortLowerExample<T>(key: T -> nat, a: T, b: T, d: T, f: T)
    requires key(b) < key(a) <= key(d) <= key(f)
    ensures SortBy(key, [a] + ([b] + ([d] + [f]))) == [b] + ([a] + ([d] + [f]))
  {
    SortOne(key, f);
    assert [f] == [f] + [];
    SortAfter(key, d, f, []);
    InsertBefore(key, d, f, []);
    SortAfter(key, b, d, [f]);
    InsertBefore(key, b, d, [f]);
    SortAfter(key, a, b, [d] + [f]);
    InsertPast(key, a, b, [d] + [f]);
    InsertBefore(key, a, d, [f]);
  }

  lemma SortUpperExample<T>(key: T -> nat, c: T, e: T)
    requires key(e) < key(c)
    ensures SortBy(key, [c] + [e]) == [e] + [c]
  {
    SortOne(key, e);
    assert [e] == [e] + [];
    SortAfter(key, c, e, []);
    InsertPast(key, c, e, []);
    SortOne(key, c);
    assert InsertBy(key, c, []) == [c];
  }

  lemma ExampleNums(feed: seq<Table>)
    requires IsExampleFeed(feed)
    ensures Num(feed[0]) == 3 && Num(feed[1]) == 1 && Num(feed[2]) == 2
    ensures Num(feed[3]) == 10 && Num(feed[4]) == 1 && Num(feed[5]) == MAX_SAFE_INTEGER
  {
    ParseNumExamples();
    ParseNumSmall();
    ParseNumTen();
  }

  lemma ExampleUpper(feed: seq<Table>)
    requires IsExampleFeed(feed)
    ensures IsUpper(feed[2].masaNo) && IsUpper(feed[4].masaNo)
    ensures !IsUpper(feed[0].masaNo) && !IsUpper(feed[1].masaNo)
    ensures !IsUpper(feed[3].masaNo) && !IsUpper(feed[5].masaNo)
  {
  }

  lemma SixParts<T>(s: seq<T>)
    requires |s| == 6
    ensures s == [s[0]] + ([s[1]] + ([s[2]] + ([s[3]] + ([s[4]] + [s[5]]))))
  {
    SpellSix(s[0], s[1], s[2], s[3], s[4], s[5]);
  }

  lemma SpellSix<T>(a: T, b: T, c: T, d: T, e: T, f: T)
    ensures [a] + ([b] + ([c] + ([d] + ([e] + [f])))) == [a, b, c, d, e, f]
    ensures ([a] + ([b] + ([c] + [d]))) + ([e] + [f]) == [a, b, c, d, e, f]
  {
    assert [e] + [f] == [e, f];
    assert [c] + [d] == [c, d];
    assert [b] + [c, d] == [b, c, d];
    assert [a] + [b, c, d] == [a, b, c, d];
    assert [d] + [e, f] == [d, e, f];
    assert [c] + [d, e, f] == [c, d, e, f];
    assert [b] + [c, d, e, f] == [b, c, d, e, f];
  }

  /** Six tables, two of them `u`-suffixed, whose keys are distinct. */
  lemma NormalizeSix(a: Table, b: Table, c: Table, d: Table, e: Table, f: Table)
    requires !IsUpper(a.masaNo) && !IsUpper(b.masaNo) && IsUpper(c.masaNo)
    requires !IsUpper(d.masaNo) && IsUpper(e.masaNo) && !IsUpper(f.masaNo)
    requires Num(b) < Num(a) <= Num(d) <= Num(f) && Num(e) < Num(c)
    requires Dedup([a] + ([b] + ([c] + ([d] + ([e] + [f]))))) == [a] + ([b] + ([c] + ([d] + ([e] + [f]))))
    ensures Normalize([a] + ([b] + ([c] + ([d] + ([e] + [f]))))) == ([b] + ([a] + ([d] + [f]))) + ([e] + [c])
  {
    ExampleGroup(a, b, c, d, e, f, false);
    ExampleGroup(a, b, c, d, e, f, true);
    SortLowerExample(Num, a, b, d, f);
    SortUpperExample(Num, c, e);
  }

  /** Facts about the worked feed that the ordering depends on. */
  ghost predicate ShapedLikeExample(feed: seq<Table>) {
    && |feed| == 6
    && Dedup(feed) == feed
    && !IsUpper(feed[0].masaNo) && !IsUpper(feed[1].masaNo) && IsUpper(feed[2].masaNo)
    && !IsUpper(feed[3].masaNo) && IsUpper(feed[4].masaNo) && !IsUpper(feed[5].masaNo)
    && Num(feed[1]) < Num(feed[0]) <= Num(feed[3]) <= Num(feed[5]) && Num(feed[4]) < Num(feed[2])
  }

  lemma ExampleShape(feed: seq<Table>)
    requires IsExampleFeed(feed)
    ensures ShapedLikeExample(feed)
  {
    ExampleDedup(feed);
    ExampleUpper(feed);
    ExampleNums(feed);
  }

  lemma NormalizeShaped(feed: seq<Table>)
    requires ShapedLikeExample(feed)
    ensures Normalize(feed) == [feed[1], feed[0], feed[3], feed[5], feed[4], feed[2]]
  {
    var a, b, c, d, e, f := feed[0], feed[1], feed[2], feed[3], feed[4], feed[5];
    SixParts(feed);
    NormalizeSix(a, b, c, d, e, f);
    SpellSix(b, a, d, f, e, c);
  }

  /** The worked feed is listed as "1", "3", "10", "x", "1U", "2U": the
      label without digits last among the ordinary tables, and "2U" after
      "10" because it is `u`-suffixed. */
  lemma NormalizeExample(feed: seq<Table>)
    requires IsExampleFeed(feed)
    ensures Normalize(feed) == [feed[1], feed[0], feed[3], feed[5], feed[4], feed[2]]
  {
    ExampleShape(feed);
    NormalizeShaped(feed);
  }
}
