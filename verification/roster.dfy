/** The table roster of the start screen (src/pages/Masalar.js): the raw
    table feed is deduplicated by a normalised table-number key, split into
    ordinary tables and tables whose number ends in `u`/`U`, and each part
    is sorted by the first number found in the table label. */
module Roster {
  import opened Options
  import opened Text
  import opened Sorting

  /** One record of the table feed: its id, its display number (a label
      such as "12" or "2U", possibly missing) and its open amount, which the
      roster only carries along. */
  datatype Table = Table(masaId: Option<int>, masaNo: Option<string>, masaTutar: real)

  /** The deduplication key: the trimmed table number when there is one,
      else the id printed in decimal when it is truthy (present and non-zero),
      else the empty string. Numbers and ids share one key space. */
  function Key(t: Table): string {
    match t.masaNo
    case Some(no) => Trim(no)
    case None => if t.masaId.Some? && t.masaId.value != 0 then IntToString(t.masaId.value) else ""
  }

  /** What a key says about its record: a numbered table's key carries no
      surrounding whitespace and is empty exactly when the number is blank;
      an unnumbered table's key is empty exactly when its id is missing or
      zero, and otherwise spells the id in decimal. */
  lemma KeyMeaning(t: Table)
    ensures t.masaNo.Some? ==> Trimmed(Key(t))
    ensures Key(t) == [] <==>
      (if t.masaNo.Some? then AllWhitespace(t.masaNo.value) else t.masaId.None? || t.masaId.value == 0)
    ensures t.masaNo.None? && t.masaId.Some? && t.masaId.value > 0 ==>
      Canonical(Key(t)) && DigitsValue(Key(t)) == t.masaId.value
    ensures t.masaNo.None? && t.masaId.Some? && t.masaId.value < 0 ==>
      |Key(t)| > 1 && Key(t)[0] == '-' && Canonical(Key(t)[1..]) && DigitsValue(Key(t)[1..]) == -t.masaId.value
  {
    if t.masaNo.Some? {
      TrimEmpty(t.masaNo.value);
    }
  }

  /** Table numbers and ids share one key space: a record numbered with the
      canonical numeral of a positive id, padded or not, lands on the same
      key as a record that has no number and carries that id. */
  lemma NumberAndIdShareKey(id: int, d: string, numbered: Table, unnumbered: Table, pre: string, post: string)
    requires id > 0 && unnumbered.masaNo.None? && unnumbered.masaId == Some(id)
    requires Canonical(d) && DigitsValue(d) == id
    requires AllWhitespace(pre) && AllWhitespace(post) && numbered.masaNo == Some(pre + d + post)
    ensures Key(numbered) == Key(unnumbered)
  {
    assert Trimmed(d);
    TrimRemovesPadding(pre, d, post);
    IntToStringIsTheNumeral(id, d);
  }

  /** The key of a numbered table ignores whitespace around the number. */
  lemma KeyIgnoresPadding(id: Option<int>, pre: string, no: string, post: string, tutar: real)
    requires AllWhitespace(pre) && AllWhitespace(post) && Trimmed(no)
    ensures Key(Table(id, Some(pre + no + post), tutar)) == no
  {
    TrimRemovesPadding(pre, no, post);
  }

  /** `isUpper`: the printed table number ends in `u` or `U`. The test reads
      the number as stored, not trimmed; a missing number prints as "null"
      or "undefined" and never passes. */
  predicate IsUpper(no: Option<string>) {
    no.Some? && |no.value| > 0 && no.value[|no.value| - 1] in {'u', 'U'}
  }

  /** The sort key of a table. */
  function Num(t: Table): nat {
    ParseNum(t.masaNo)
  }

  /** The set of keys carried by the records of `s`. */
  function KeysOf(s: seq<Table>): set<string> {
    set i | 0 <= i < |s| :: Key(s[i])
  }

  lemma KeysOfSnoc(s: seq<Table>, m: Table)
    ensures KeysOf(s + [m]) == KeysOf(s) + {Key(m)}
  {
    var t := s + [m];
    forall k | k in KeysOf(t) ensures k in KeysOf(s) + {Key(m)} {
      var i :| 0 <= i < |t| && Key(t[i]) == k;
      if i < |s| { assert t[i] == s[i]; }
    }
    forall k | k in KeysOf(s) + {Key(m)} ensures k in KeysOf(t) {
      if k in KeysOf(s) {
        var i :| 0 <= i < |s| && Key(s[i]) == k;
        assert t[i] == s[i];
      } else {
        assert t[|s|] == m;
      }
    }
  }

  ghost predicate DistinctKeys(s: seq<Table>) {
    forall i, j :: 0 <= i < j < |s| ==> Key(s[i]) != Key(s[j])
  }

  /** Index of the first record of `raw` that carries key `k`. */
  ghost function FirstIndex(raw: seq<Table>, k: string): (i: nat)
    requires k in KeysOf(raw)
    ensures i < |raw| && Key(raw[i]) == k
    ensures forall j :: 0 <= j < i ==> Key(raw[j]) != k
  {
    var w :| 0 <= w < |raw| && Key(raw[w]) == k;
    FirstAtOrBefore(raw, k, w);
    var i :| 0 <= i <= w && Key(raw[i]) == k && forall j :: 0 <= j < i ==> Key(raw[j]) != k;
    i
  }

  /** Below any record with key `k` lies a first one. */
  lemma {:induction false} FirstAtOrBefore(raw: seq<Table>, k: string, w: nat)
    requires w < |raw| && Key(raw[w]) == k
    ensures exists i :: 0 <= i <= w && Key(raw[i]) == k && forall j :: 0 <= j < i ==> Key(raw[j]) != k
    decreases w
  {
    if exists j :: 0 <= j < w && Key(raw[j]) == k {
      var j :| 0 <= j < w && Key(raw[j]) == k;
      FirstAtOrBefore(raw, k, j);
    }
  }

  /** `unique` is what the `Map` pass leaves of `raw`: one record per key
      of `raw`, each the first record of `raw` with that key, listed in the
      order in which their keys first occur. */
  ghost predicate IsDedupOf(raw: seq<Table>, unique: seq<Table>) {
    && DistinctKeys(unique)
    && KeysOf(unique) == KeysOf(raw)
    && (forall j :: 0 <= j < |unique| ==>
          Key(unique[j]) in KeysOf(raw) && unique[j] == raw[FirstIndex(raw, Key(unique[j]))])
    && (forall i, j :: 0 <= i < j < |unique| ==>
          Key(unique[i]) in KeysOf(raw) && Key(unique[j]) in KeysOf(raw) &&
          FirstIndex(raw, Key(unique[i])) < FirstIndex(raw, Key(unique[j])))
  }

  /** The `Map` pass: records are visited in order, and a record is kept
      only when the map has no entry for its key yet. */
  function Dedup(raw: seq<Table>): (unique: seq<Table>)
    ensures IsDedupOf(raw, unique)
  {
    if raw == [] then []
    else
      var d := Dedup(raw[..|raw| - 1]);
      DedupStep(raw, d);
      if Key(raw[|raw| - 1]) in KeysOf(d) then d else d + [raw[|raw| - 1]]
  }

  /** One visit of the `Map` pass, on the last record of `raw`. */
  lemma DedupStep(raw: seq<Table>, d: seq<Table>)
    requires raw != [] && IsDedupOf(raw[..|raw| - 1], d)
    ensures IsDedupOf(raw, if Key(raw[|raw| - 1]) in KeysOf(d) then d else d + [raw[|raw| - 1]])
  {
    var init, m := raw[..|raw| - 1], raw[|raw| - 1];
    assert raw == init + [m];
    if Key(m) in KeysOf(d) {
      DedupKeep(init, m, d);
    } else {
      DedupAdd(init, m, d);
    }
  }

  lemma FirstIndexSnoc(init: seq<Table>, m: Table, k: string)
    requires k in KeysOf(init)
    ensures k in KeysOf(init + [m])
    ensures FirstIndex(init + [m], k) == FirstIndex(init, k)
  {
    KeysOfSnoc(init, m);
    var raw := init + [m];
    var i, i' := FirstIndex(raw, k), FirstIndex(init, k);
    assert raw[i'] == init[i'];
  }

  lemma FirstIndexNew(init: seq<Table>, m: Table)
    requires Key(m) !in KeysOf(init)
    ensures Key(m) in KeysOf(init + [m])
    ensures FirstIndex(init + [m], Key(m)) == |init|
  {
    KeysOfSnoc(init, m);
    var raw := init + [m];
    assert forall j :: 0 <= j < |init| ==> raw[j] == init[j];
  }

  /** A record whose key is already mapped is skipped. */
  lemma DedupKeep(init: seq<Table>, m: Table, d: seq<Table>)
    requires IsDedupOf(init, d) && Key(m) in KeysOf(d)
    ensures IsDedupOf(init + [m], d)
  {
    var raw := init + [m];
    KeysOfSnoc(init, m);
    forall j | 0 <= j < |d|
      ensures Key(d[j]) in KeysOf(raw) && d[j] == raw[FirstIndex(raw, Key(d[j]))]
    {
      FirstIndexSnoc(init, m, Key(d[j]));
    }
    forall i, j | 0 <= i < j < |d|
      ensures Key(d[i]) in KeysOf(raw) && Key(d[j]) in KeysOf(raw)
      ensures FirstIndex(raw, Key(d[i])) < FirstIndex(raw, Key(d[j]))
    {
      FirstIndexSnoc(init, m, Key(d[i]));
      FirstIndexSnoc(init, m, Key(d[j]));
    }
  }

  /** A record with a new key is appended. */
  lemma DedupAdd(init: seq<Table>, m: Table, d: seq<Table>)
    requires IsDedupOf(init, d) && Key(m) !in KeysOf(d)
    ensures IsDedupOf(init + [m], d + [m])
  {
    var raw, r := init + [m], d + [m];
    KeysOfSnoc(init, m);
    KeysOfSnoc(d, m);
    FirstIndexNew(init, m);
    forall i, j | 0 <= i < j < |r| ensures Key(r[i]) != Key(r[j]) {
      if j < |d| {
        assert r[i] == d[i] && r[j] == d[j];
      } else {
        assert r[i] == d[i];
        assert Key(d[i]) in KeysOf(d);
      }
    }
    forall j | 0 <= j < |r|
      ensures Key(r[j]) in KeysOf(raw) && r[j] == raw[FirstIndex(raw, Key(r[j]))]
    {
      if j < |d| {
        assert r[j] == d[j];
        FirstIndexSnoc(init, m, Key(d[j]));
      }
    }
    forall i, j | 0 <= i < j < |r|
      ensures Key(r[i]) in KeysOf(raw) && Key(r[j]) in KeysOf(raw)
      ensures FirstIndex(raw, Key(r[i])) < FirstIndex(raw, Key(r[j]))
    {
      assert r[i] == d[i];
      FirstIndexSnoc(init, m, Key(d[i]));
      if j < |d| {
        assert r[j] == d[j];
        FirstIndexSnoc(init, m, Key(d[j]));
      }
    }
  }

  /** The records of `s` that fall in one group (`upper` tells which),
      in their order in `s`: the two `filter` calls. */
  function Group(s: seq<Table>, upper: bool): seq<Table> {
    if s == [] then []
    else (if IsUpper(s[0].masaNo) == upper then [s[0]] else []) + Group(s[1..], upper)
  }

  /** The roster shown on the start screen. */
  function Normalize(raw: seq<Table>): seq<Table> {
    var unique := Dedup(raw);
    SortBy(Num, Group(unique, false)) + SortBy(Num, Group(unique, true))
  }

  /** The records of a feed whose elements are all present; `None` when
      some element is null or undefined, since reading `masaNo` off such an
      element throws. */
  function Records(feed: seq<Option<Table>>): (records: Option<seq<Table>>)
    ensures records.None? <==> exists i :: 0 <= i < |feed| && feed[i].None?
    ensures records.Some? ==>
      |records.value| == |feed| && forall i :: 0 <= i < |feed| ==> feed[i] == Some(records.value[i])
  {
    if feed == [] then Some([])
    else
      var rest := Records(feed[1..]);
      if feed[0].None? then None
      else if rest.None? then
        var i :| 0 <= i < |feed[1..]| && feed[1..][i].None?;
        assert feed[i + 1].None?;
        None
      else
        var records := [feed[0].value] + rest.value;
        assert forall i :: 1 <= i < |feed| ==> feed[i] == feed[1..][i - 1] && records[i] == rest.value[i - 1];
        Some(records)
  }

  /** The success handler and the failure fallback. The body is `None` for
      null, for every other falsy value (which `|| []` turns into an empty
      list) and for any other non-array JSON value (whose missing `forEach`
      throws); all of these, a failed request and a feed with a null or
      undefined element end in the empty roster. */
  function LoadRoster(reply: Reply<Option<seq<Option<Table>>>>): (roster: seq<Table>)
    ensures reply.Fail? || reply.value.None? ==> roster == []
    ensures reply.Ok? && reply.value.Some? && (exists i :: 0 <= i < |reply.value.value| && reply.value.value[i].None?) ==>
      roster == []
    ensures reply.Ok? && reply.value.Some? && Records(reply.value.value).Some? ==>
      var raw := Records(reply.value.value).value;
      && DistinctKeys(roster)
      && KeysOf(roster) == KeysOf(raw)
      && |roster| == |KeysOf(raw)|
  {
    match reply
    case Fail => []
    case Ok(None) => []
    case Ok(Some(feed)) =>
      match Records(feed)
      case None => []
      case Some(raw) =>
        NormalizeKeys(raw);
        Normalize(raw)
  }

  // ---------------------------------------------------------------------
  // Keys

  /** Appending a record keeps the keys distinct exactly when its key is new. */
  lemma DistinctKeysSnoc(init: seq<Table>, m: Table)
    ensures DistinctKeys(init + [m]) <==> DistinctKeys(init) && Key(m) !in KeysOf(init)
  {
    var s := init + [m];
    if Key(m) in KeysOf(init) {
      var i :| 0 <= i < |init| && Key(init[i]) == Key(m);
      assert Key(s[i]) == Key(s[|s| - 1]);
    }
    if DistinctKeys(s) {
      forall i, j | 0 <= i < j < |init| ensures Key(init[i]) != Key(init[j]) {
        assert s[i] == init[i] && s[j] == init[j];
      }
    }
    if DistinctKeys(init) && Key(m) !in KeysOf(init) {
      forall i, j | 0 <= i < j < |s| ensures Key(s[i]) != Key(s[j]) {
        assert s[i] == init[i];
        if j < |s| - 1 { assert s[j] == init[j]; }
        else { assert Key(init[i]) in KeysOf(init); }
      }
    }
  }

  lemma {:induction false} KeysOfBound(s: seq<Table>)
    ensures |KeysOf(s)| <= |s|
    ensures |KeysOf(s)| == |s| <==> DistinctKeys(s)
  {
    if s != [] {
      var init, m := s[..|s| - 1], s[|s| - 1];
      assert s == init + [m];
      KeysOfSnoc(init, m);
      KeysOfBound(init);
      DistinctKeysSnoc(init, m);
    }
  }

  /** The key set depends only on which records occur. */
  lemma KeysOfPermutation(a: seq<Table>, b: seq<Table>)
    requires multiset(a) == multiset(b)
    ensures KeysOf(a) == KeysOf(b)
  {
    forall k | k in KeysOf(a) ensures k in KeysOf(b) {
      var i :| 0 <= i < |a| && Key(a[i]) == k;
      assert a[i] in multiset(b);
      var j :| 0 <= j < |b| && b[j] == a[i];
    }
    forall k | k in KeysOf(b) ensures k in KeysOf(a) {
      var j :| 0 <= j < |b| && Key(b[j]) == k;
      assert b[j] in multiset(a);
      var i :| 0 <= i < |a| && a[i] == b[j];
    }
  }

  /** A rearrangement of records with distinct keys has distinct keys. */
  lemma DistinctKeysPermutation(a: seq<Table>, b: seq<Table>)
    requires multiset(a) == multiset(b) && DistinctKeys(a)
    ensures DistinctKeys(b)
  {
    KeysOfPermutation(a, b);
    KeysOfBound(a);
    KeysOfBound(b);
    assert |a| == |multiset(a)| == |multiset(b)| == |b|;
  }

  /** A feed without repeated keys passes the `Map` pass unchanged. */
  lemma {:induction false} DedupOfDistinct(s: seq<Table>)
    requires DistinctKeys(s)
    ensures Dedup(s) == s
  {
    if s != [] {
      var init, m := s[..|s| - 1], s[|s| - 1];
      assert s == init + [m];
      assert DistinctKeys(init) by {
        forall i, j | 0 <= i < j < |init| ensures Key(init[i]) != Key(init[j]) {
          assert init[i] == s[i] && init[j] == s[j];
        }
      }
      DedupOfDistinct(init);
      forall i | 0 <= i < |init| ensures Key(init[i]) != Key(m) {
        assert init[i] == s[i];
      }
      assert Key(m) !in KeysOf(init);
    }
  }

  // ---------------------------------------------------------------------
  // Groups

  lemma GroupCons(x: Table, s: seq<Table>, upper: bool)
    ensures Group([x] + s, upper) == (if IsUpper(x.masaNo) == upper then [x] else []) + Group(s, upper)
  {
    assert ([x] + s)[1..] == s;
  }

  /** A group holds records of the feed that belong to it. */
  lemma {:induction false} GroupMembers(s: seq<Table>, upper: bool)
    ensures forall x :: x in Group(s, upper) ==> x in s && IsUpper(x.masaNo) == upper
    decreases |s|
  {
    if s != [] {
      GroupMembers(s[1..], upper);
    }
  }

  lemma {:induction false} GroupConcat(a: seq<Table>, b: seq<Table>, upper: bool)
    ensures Group(a + b, upper) == Group(a, upper) + Group(b, upper)
    decreases |a|
  {
    if a == [] {
      assert a + b == b;
    } else {
      var x, t := a[0], a[1..];
      assert a == [x] + t;
      assert a + b == [x] + (t + b);
      GroupCons(x, t + b, upper);
      GroupCons(x, t, upper);
      GroupConcat(t, b, upper);
      var p := if IsUpper(x.masaNo) == upper then [x] else [];
      assert p + (Group(t, upper) + Group(b, upper)) == (p + Group(t, upper)) + Group(b, upper);
    }
  }

  lemma {:induction false} GroupOfUniform(s: seq<Table>, upper: bool)
    requires forall x :: x in s ==> IsUpper(x.masaNo) == upper
    ensures Group(s, upper) == s
    ensures Group(s, !upper) == []
    decreases |s|
  {
    if s != [] {
      GroupOfUniform(s[1..], upper);
      assert s == [s[0]] + s[1..];
    }
  }

  /** Together the two groups hold every record exactly once. */
  lemma {:induction false} GroupsPartition(s: seq<Table>)
    ensures multiset(Group(s, false)) + multiset(Group(s, true)) == multiset(s)
    decreases |s|
  {
    if s != [] {
      GroupsPartition(s[1..]);
      assert s == [s[0]] + s[1..];
    }
  }

  /** Every record of a sorted group belongs to that group. */
  lemma SortedGroupUniform(d: seq<Table>, upper: bool)
    ensures forall x :: x in SortBy(Num, Group(d, upper)) ==> IsUpper(x.masaNo) == upper
  {
    GroupMembers(d, upper);
    forall x | x in SortBy(Num, Group(d, upper)) ensures IsUpper(x.masaNo) == upper {
      assert x in multiset(SortBy(Num, Group(d, upper)));
      assert x in multiset(Group(d, upper));
    }
  }

  /** The roster's groups are the sorted groups of the deduplicated feed. */
  lemma GroupsOfNormalize(raw: seq<Table>)
    ensures Group(Normalize(raw), false) == SortBy(Num, Group(Dedup(raw), false))
    ensures Group(Normalize(raw), true) == SortBy(Num, Group(Dedup(raw), true))
  {
    var d := Dedup(raw);
    var lower, upper := SortBy(Num, Group(d, false)), SortBy(Num, Group(d, true));
    SortedGroupUniform(d, false);
    SortedGroupUniform(d, true);
    GroupOfUniform(lower, false);
    GroupOfUniform(upper, true);
    GroupConcat(lower, upper, false);
    GroupConcat(lower, upper, true);
    assert lower + [] == lower;
    assert [] + upper == upper;
  }

  /** The roster holds the deduplicated records, each once, and nothing
      else: one entry per distinct key of the feed. */
  lemma NormalizeKeys(raw: seq<Table>)
    ensures multiset(Normalize(raw)) == multiset(Dedup(raw))
    ensures DistinctKeys(Normalize(raw))
    ensures KeysOf(Normalize(raw)) == KeysOf(raw)
    ensures |Normalize(raw)| == |KeysOf(raw)|
  {
    var d := Dedup(raw);
    var roster := Normalize(raw);
    GroupsPartition(d);
    assert multiset(roster) == multiset(d);
    DistinctKeysPermutation(d, roster);
    KeysOfPermutation(d, roster);
    KeysOfBound(roster);
  }
}
