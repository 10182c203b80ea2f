/** compaction.go: cutting the output of a flush into files, for point entries. */
module FlushSplit {
  import opened Wrappers
  import opened InternalKeys

  /** A file of the level below the output. */
  datatype Grandparent = Grandparent(largest: Key, size: nat)

  /** What the splitters consult. */
  datatype Config = Config(
    maxFileSize: nat,
    estimatedSize: seq<Entry> -> nat,      // of the table being written
    grandparents: seq<Grandparent>,
    maxOverlapBytes: nat,
    l0Limits: seq<Key>)
  {
    ghost predicate Valid() {
      && (forall i, j :: 0 <= i < j < |grandparents| ==> grandparents[i].largest <= grandparents[j].largest)
      && (forall i, j :: 0 <= i < j < |l0Limits| ==> l0Limits[i] <= l0Limits[j])
    }
  }

  /** The first grandparent that ends at or after `start`. */
  method SeekGrandparent(config: Config, start: Key) returns (n: nat)
    requires config.Valid()
    ensures FirstReached(config, start, n)
  {
    n := 0;
    while n < |config.grandparents| && config.grandparents[n].largest < start
      invariant n <= |config.grandparents| && forall i :: 0 <= i < n ==> config.grandparents[i].largest < start
    {
      n := n + 1;
    }
  }

  function SizeOf(files: seq<Grandparent>): nat {
    if files == [] then 0 else SizeOf(files[..|files| - 1]) + files[|files| - 1].size
  }

  /** A table from `start` into grandparent `i` overlaps too much, where `n` is the first that it reaches. */
  predicate Exceeds(config: Config, start: Key, n: nat, i: nat)
    requires n <= i < |config.grandparents|
  {
    SizeOf(config.grandparents[n..i + 1]) > config.maxOverlapBytes && start < config.grandparents[i].largest
  }

  ghost predicate IsLimit(config: Config, start: Key, n: nat, i: nat, limit: Key)
    requires n <= i < |config.grandparents|
  {
    && Exceeds(config, start, n, i) && limit == config.grandparents[i].largest
    && forall j: nat :: n <= j < i ==> !Exceeds(config, start, n, j)
  }

  ghost predicate FirstReached(config: Config, start: Key, n: nat) {
    && n <= |config.grandparents|
    && forall i :: 0 <= i < |config.grandparents| ==> (i < n <==> config.grandparents[i].largest < start)
  }

  ghost predicate LimitFrom(config: Config, start: Key, n: nat, limit: Option<Key>)
    requires n <= |config.grandparents|
  {
    if limit == None then forall i: nat :: n <= i < |config.grandparents| ==> !Exceeds(config, start, n, i)
    else exists i: nat :: n <= i < |config.grandparents| && IsLimit(config, start, n, i, limit.value)
  }

  ghost predicate IsGrandparentLimit(config: Config, start: Key, limit: Option<Key>) {
    exists n: nat :: FirstReached(config, start, n) && LimitFrom(config, start, n, limit)
  }

  lemma {:induction false} GrandparentLimitUnique(config: Config, start: Key, a: Option<Key>, b: Option<Key>)
    requires IsGrandparentLimit(config, start, a) && IsGrandparentLimit(config, start, b)
    ensures a == b
  {
    var m: nat :| FirstReached(config, start, m) && LimitFrom(config, start, m, a);
    var n: nat :| FirstReached(config, start, n) && LimitFrom(config, start, n, b);
    assert m < |config.grandparents| ==> config.grandparents[m].largest >= start;
    assert n < |config.grandparents| ==> config.grandparents[n].largest >= start;
    if a.Some? && b.Some? {
      var i: nat :| n <= i < |config.grandparents| && IsLimit(config, start, n, i, a.value);
      var j: nat :| n <= j < |config.grandparents| && IsLimit(config, start, n, j, b.value);
      assert i == j;
    }
  }

  /** How far a table that begins at `start` may reach: the end of the first grandparent, after `start`,
      with which it would overlap too much. */
  method FindGrandparentLimit(config: Config, start: Key) returns (limit: Option<Key>)
    requires config.Valid()
    ensures IsGrandparentLimit(config, start, limit) && (limit.Some? ==> start < limit.value)
  {
    var n := SeekGrandparent(config, start);
    var overlapped := 0;
    for i := n to |config.grandparents|
      invariant overlapped == SizeOf(config.grandparents[n..i])
      invariant forall j: nat :: n <= j < i ==> !Exceeds(config, start, n, j)
    {
      assert config.grandparents[n..i + 1][..i - n] == config.grandparents[n..i];
      overlapped := overlapped + config.grandparents[i].size;
      assert overlapped == SizeOf(config.grandparents[n..i + 1]);
      if overlapped > config.maxOverlapBytes && start < config.grandparents[i].largest {
        assert IsLimit(config, start, n, i, config.grandparents[i].largest);
        limit := Some(config.grandparents[i].largest);
        assert LimitFrom(config, start, n, limit);
        return;
      }
    }
    limit := None;
    assert LimitFrom(config, start, n, limit);
  }

  ghost predicate IsL0Limit(config: Config, start: Key, limit: Option<Key>) {
    && (limit.Some? ==> start < limit.value && limit.value in config.l0Limits)
    && (forall k :: k in config.l0Limits && start < k ==> limit.Some? && limit.value <= k)
  }

  /** The first flush split key after `start`. */
  method FindL0Limit(config: Config, start: Key) returns (limit: Option<Key>)
    requires config.Valid()
    ensures IsL0Limit(config, start, limit) && (limit.Some? ==> start < limit.value)
  {
    var n, upper := 0, |config.l0Limits|;
    while n < upper
      invariant 0 <= n <= upper <= |config.l0Limits|
      invariant forall i :: 0 <= i < n ==> config.l0Limits[i] <= start
      invariant forall i :: upper <= i < |config.l0Limits| ==> start < config.l0Limits[i]
    {
      var h := (n + upper) / 2;
      if config.l0Limits[h] > start { upper := h; } else { n := h + 1; }
    }
    limit := if n < |config.l0Limits| then Some(config.l0Limits[n]) else None;
  }

  /** The group of the user-key-change, grandparent-limit and L0-limit splitters, in that order. */
  class Splitters {
    const config: Config
    var splitOnNextUserKey: bool
    var savedKey: Key
    var grandparentLimit: Option<Key>
    var l0Limit: Option<Key>

    constructor (config: Config)
      ensures this.config == config && !splitOnNextUserKey
    {
      this.config := config;
      splitOnNextUserKey, savedKey, grandparentLimit, l0Limit := false, 0.0, None, None;
    }

    /** Each limit is past `key`. */
    predicate LimitsPast(key: Key)
      reads this
    {
      (grandparentLimit.Some? ==> key < grandparentLimit.value) && (l0Limit.Some? ==> key < l0Limit.value)
    }

    /** No limit has been exceeded by `key`. */
    predicate Within(key: Key)
      reads this
    {
      (grandparentLimit.Some? ==> key <= grandparentLimit.value) && (l0Limit.Some? ==> key <= l0Limit.value)
    }

    method OnNewOutput(key: Key)
      requires config.Valid()
      modifies this`grandparentLimit, this`l0Limit
      ensures LimitsPast(key) && IsL0Limit(config, key, l0Limit) && IsGrandparentLimit(config, key, grandparentLimit)
    {
      grandparentLimit := FindGrandparentLimit(config, key);
      l0Limit := FindL0Limit(config, key);
    }

    /** userKeyChangeSplitter around fileSizeSplitter: a split that the size calls for waits for the next
        user key. */
    method SizeSplits(key: Key, table: Option<seq<Entry>>) returns (split: bool)
      modifies this`splitOnNextUserKey, this`savedKey
      ensures split <==> old(splitOnNextUserKey) && old(savedKey) != key
      ensures splitOnNextUserKey <==>
        !split && (old(splitOnNextUserKey) || (table.Some? && config.estimatedSize(table.value) >= config.maxFileSize))
      ensures splitOnNextUserKey ==> savedKey == key
    {
      if splitOnNextUserKey && savedKey != key {
        splitOnNextUserKey := false;
        return true;
      }
      if table.Some? && config.estimatedSize(table.value) >= config.maxFileSize {
        splitOnNextUserKey := true;
        savedKey := key;
      }
      split := false;
    }

    method ShouldSplitBefore(key: Key, table: Option<seq<Entry>>) returns (split: bool)
      modifies this`splitOnNextUserKey, this`savedKey
      ensures split <==> (old(splitOnNextUserKey) && old(savedKey) != key) || !Within(key)
      ensures splitOnNextUserKey <==>
        && !(old(splitOnNextUserKey) && old(savedKey) != key)
        && (old(splitOnNextUserKey) || (table.Some? && config.estimatedSize(table.value) >= config.maxFileSize))
      ensures splitOnNextUserKey ==> savedKey == key
    {
      var first := SizeSplits(key, table);
      if first { return true; }
      if grandparentLimit.Some? && key > grandparentLimit.value { return true; }
      split := l0Limit.Some? && key > l0Limit.value;
    }
  }

  ghost predicate Ascending(input: seq<Entry>) {
    forall i, j :: 0 <= i < j < |input| ==> input[i].key <= input[j].key
  }

  function Concat(files: seq<seq<Entry>>): seq<Entry> {
    if files == [] then [] else Concat(files[..|files| - 1]) + files[|files| - 1]
  }

  /** Each file but the last ends before the next user key. */
  ghost predicate Apart(files: seq<seq<Entry>>) {
    && (forall f :: 0 <= f < |files| ==> files[f] != [])
    && forall f, e, g, d :: 0 <= f < g < |files| && e in files[f] && d in files[g] ==> e.key < d.key
  }

  lemma {:induction false} ApartAdd(files: seq<seq<Entry>>, file: seq<Entry>)
    requires Apart(files) && file != [] && forall e, d :: e in Concat(files) && d in file ==> e.key < d.key
    ensures Apart(files + [file])
  {
    forall f, e, g, d | 0 <= f < g < |files| + 1 && e in (files + [file])[f] && d in (files + [file])[g] ensures e.key < d.key {
      if g == |files| { InConcat(files, f, e); }
    }
  }

  lemma {:induction false} InConcat(files: seq<seq<Entry>>, f: int, e: Entry)
    requires 0 <= f < |files| && e in files[f]
    ensures e in Concat(files)
  {
    if f < |files| - 1 { InConcat(files[..|files| - 1], f, e); }
  }

  /** Past its maximal size the file holds only what is left of a user key. */
  ghost predicate SizeOk(config: Config, file: seq<Entry>) {
    forall m :: 0 < m < |file| && config.estimatedSize(file[..m]) >= config.maxFileSize ==>
      forall k :: m <= k < |file| ==> file[k].key == file[m].key
  }

  /** No flush split key lies strictly inside the file. */
  ghost predicate NoBridge(config: Config, file: seq<Entry>) {
    forall limit, e, d :: limit in config.l0Limits && e in file && d in file ==> !(e.key < limit < d.key)
  }

  /** The file does not reach past the grandparent limit of its first key. */
  ghost predicate OverlapOk(config: Config, file: seq<Entry>) {
    forall limit, e {:trigger IsGrandparentLimit(config, file[0].key, Some(limit)), e in file} ::
      e in file && IsGrandparentLimit(config, file[0].key, Some(limit)) ==> e.key <= limit
  }

  // --- where files end -----------------------------------------------------------------

  predicate Full(config: Config, file: seq<Entry>) {
    config.estimatedSize(file) >= config.maxFileSize
  }

  /** The file was full before its last entry was written. */
  ghost predicate FullBefore(config: Config, file: seq<Entry>) {
    exists m :: 0 < m < |file| && Full(config, file[..m])
  }

  /** A file that begins at `first` may not reach to `next`. */
  ghost predicate PastLimit(config: Config, first: Key, next: Key) {
    exists limit :: limit < next && (IsL0Limit(config, first, Some(limit)) || IsGrandparentLimit(config, first, Some(limit)))
  }

  /** A file has to end before the user key `next`: a size split was postponed into it, it was full before its last
      entry, or a limit lies before `next`. */
  ghost predicate Due(config: Config, file: seq<Entry>, postponed: bool, next: Key)
    requires file != []
  {
    postponed || FullBefore(config, file) || PastLimit(config, file[0].key, next)
  }

  /** The file did not have to end at an earlier user key. */
  ghost predicate NotDueInside(config: Config, file: seq<Entry>, postponed: bool) {
    forall k :: 0 < k < |file| && file[k - 1].key != file[k].key ==> !Due(config, file[..k], postponed, file[k].key)
  }

  /** The file passes a size split on to the next one: it got full with its last entry, and a limit ended it before
      the split could be made. */
  ghost predicate Postpones(config: Config, file: seq<Entry>, postponed: bool, next: Key)
    requires file != []
  {
    !postponed && !FullBefore(config, file) && Full(config, file) && PastLimit(config, file[0].key, next)
  }

  /** A size split was postponed from file `f` - 1 into the one that begins at `next`. */
  ghost predicate PostponedTo(config: Config, files: seq<seq<Entry>>, f: nat, next: Key)
    requires f <= |files| && forall g :: 0 <= g < f ==> files[g] != []
    decreases f
  {
    f > 0 && Postpones(config, files[f - 1], PostponedTo(config, files, f - 1, files[f - 1][0].key), next)
  }

  /** Every file ends at the first user key at which it has to, and not before. */
  ghost predicate Cut(config: Config, files: seq<seq<Entry>>) {
    && (forall f :: 0 <= f < |files| ==> files[f] != [])
    && forall f {:trigger EndsRight(config, files, f)} :: 0 <= f < |files| ==> EndsRight(config, files, f)
  }

  ghost predicate EndsRight(config: Config, files: seq<seq<Entry>>, f: nat)
    requires f < |files| && forall g :: 0 <= g < |files| ==> files[g] != []
  {
    var postponed := PostponedTo(config, files, f, files[f][0].key);
    && NotDueInside(config, files[f], postponed)
    && (f + 1 < |files| ==>
          files[f][|files[f]| - 1].key != files[f + 1][0].key && Due(config, files[f], postponed, files[f + 1][0].key))
  }

  lemma {:induction false} PostponedSame(config: Config, a: seq<seq<Entry>>, b: seq<seq<Entry>>, f: nat, next: Key)
    requires f <= |a| && f <= |b| && a[..f] == b[..f] && forall g :: 0 <= g < f ==> a[g] != []
    ensures forall g :: 0 <= g < f ==> b[g] != []
    ensures PostponedTo(config, a, f, next) == PostponedTo(config, b, f, next)
  {
    assert forall g :: 0 <= g < f ==> a[..f][g] == a[g] && b[..f][g] == b[g];
    if f > 0 {
      assert a[..f - 1] == a[..f][..f - 1] && b[..f - 1] == b[..f][..f - 1];
      PostponedSame(config, a, b, f - 1, a[f - 1][0].key);
    }
  }

  lemma {:induction false} CutNothing(config: Config)
    ensures Cut(config, [])
  {
  }

  /** One more file: the one before it ends where the new one begins. */
  lemma {:induction false} CutAdd(config: Config, files: seq<seq<Entry>>, file: seq<Entry>)
    requires Cut(config, files) && file != []
    requires NotDueInside(config, file, PostponedTo(config, files, |files|, file[0].key))
    requires files != [] ==>
      var last, f := files[|files| - 1], |files| - 1;
      last[|last| - 1].key != file[0].key && Due(config, last, PostponedTo(config, files, f, last[0].key), file[0].key)
    ensures Cut(config, files + [file])
  {
    hide Due, NotDueInside, Postpones;
    var all: seq<seq<Entry>> := files + [file];
    forall f | 0 <= f < |all| ensures EndsRight(config, all, f) {
      assert all[..f] == files[..f];
      PostponedSame(config, files, all, f, all[f][0].key);
      if f < |files| { assert EndsRight(config, files, f); }
    }
  }

  /** The input and that description determine the files. */
  lemma {:induction false} CutUnique(config: Config, a: seq<seq<Entry>>, b: seq<seq<Entry>>)
    requires Cut(config, a) && Cut(config, b) && Concat(a) == Concat(b)
    ensures a == b
  {
    hide Concat, EndsRight;
    var n := if |a| <= |b| then |a| else |b|;
    CutPrefix(config, a, b, n);
    assert |a| == n ==> a[..n] == a;
    assert |b| == n ==> b[..n] == b;
    if n < |b| { LongerConcat(b, n); }
    if n < |a| { LongerConcat(a, n); }
  }

  lemma {:induction false} CutPrefix(config: Config, a: seq<seq<Entry>>, b: seq<seq<Entry>>, n: nat)
    requires Cut(config, a) && Cut(config, b) && Concat(a) == Concat(b) && n <= |a| && n <= |b|
    ensures a[..n] == b[..n]
  {
    if n > 0 {
      CutPrefix(config, a, b, n - 1);
      SameFile(config, a, b, n - 1);
    }
  }

  lemma {:induction false} LongerConcat(files: seq<seq<Entry>>, n: nat)
    requires n < |files| && forall f :: 0 <= f < |files| ==> files[f] != []
    ensures |Concat(files[..n])| < |Concat(files)|
  {
    ConcatAt(files, n);
    ConcatAt(files, n + 1);
  }

  /** File `f` in the concatenation. */
  lemma {:induction false} FileAt(files: seq<seq<Entry>>, f: nat)
    requires f < |files|
    ensures var input, i := Concat(files), |Concat(files[..f])|;
      && i + |files[f]| <= |input| && input[i..i + |files[f]|] == files[f]
      && (f + 1 < |files| && files[f + 1] != [] ==> i + |files[f]| < |input| && input[i + |files[f]|] == files[f + 1][0])
      && (f + 1 == |files| ==> i + |files[f]| == |input|)
  {
    hide Concat;
    ConcatAt(files, f);
    ConcatAt(files, f + 1);
    var input, i, j := Concat(files), |Concat(files[..f])|, |Concat(files[..f + 1])|;
    assert input[..j][i..j] == files[f] == input[i..j];
    if f + 1 < |files| {
      ConcatAt(files, f + 2);
      assert files[f + 1] != [] ==> input[j] == input[..j + |files[f + 1]|][j] == files[f + 1][0];
    } else {
      assert files[..f + 1] == files;
    }
  }

  /** If the input goes on after file `f`, the file had to end there. */
  lemma {:induction false} EndsWhenDue(config: Config, files: seq<seq<Entry>>, f: nat)
    requires Cut(config, files) && f < |files|
    ensures var input, i := Concat(files), |Concat(files[..f])|;
      var j := i + |files[f]|;
      && i < j <= |input| && input[i..j] == files[f]
      && (j < |input| ==> input[j - 1].key != input[j].key
                          && Due(config, files[f], PostponedTo(config, files, f, files[f][0].key), input[j].key))
  {
    hide Concat, Due, NotDueInside;
    FileAt(files, f);
    assert EndsRight(config, files, f);
    var input, i := Concat(files), |Concat(files[..f])|;
    assert input[i..i + |files[f]|][|files[f]| - 1] == input[i + |files[f]| - 1];
  }

  /** And nowhere before. */
  lemma {:induction false} NotDueEarlier(config: Config, files: seq<seq<Entry>>, f: nat, k: nat)
    requires Cut(config, files) && f < |files| && 0 < k < |files[f]| && files[f][k - 1].key != files[f][k].key
    ensures !Due(config, files[f][..k], PostponedTo(config, files, f, files[f][0].key), files[f][k].key)
  {
    hide Due;
    assert EndsRight(config, files, f);
  }

  lemma {:induction false} NotShorter(config: Config, a: seq<seq<Entry>>, b: seq<seq<Entry>>, f: nat)
    requires Cut(config, a) && Cut(config, b) && Concat(a) == Concat(b) && f < |a| && f < |b| && a[..f] == b[..f]
    ensures |a[f]| >= |b[f]|
  {
    hide Concat, Due, EndsRight, PostponedTo;
    EndsWhenDue(config, a, f);
    EndsWhenDue(config, b, f);
    PostponedSame(config, a, b, f, a[f][0].key);
    var input, i, k := Concat(a), |Concat(a[..f])|, |a[f]|;
    assert input[i] == a[f][0] == b[f][0];
    if k < |b[f]| {
      assert b[f][..k] == input[i..i + |b[f]|][..k] == a[f];
      assert b[f][k] == input[i..i + |b[f]|][k] == input[i + k] && b[f][k - 1] == input[i + k - 1];
      NotDueEarlier(config, b, f, k);
    }
  }

  lemma {:induction false} SameFile(config: Config, a: seq<seq<Entry>>, b: seq<seq<Entry>>, f: nat)
    requires Cut(config, a) && Cut(config, b) && Concat(a) == Concat(b) && f < |a| && f < |b| && a[..f] == b[..f]
    ensures a[f] == b[f]
  {
    hide Concat, Due, EndsRight, PostponedTo;
    NotShorter(config, a, b, f);
    NotShorter(config, b, a, f);
    EndsWhenDue(config, a, f);
    EndsWhenDue(config, b, f);
  }

  /** What follows the first `f` files. */
  lemma {:induction false} ConcatAt(files: seq<seq<Entry>>, f: nat)
    requires f <= |files|
    ensures |Concat(files[..f])| <= |Concat(files)| && Concat(files)[..|Concat(files[..f])|] == Concat(files[..f])
    ensures f < |files| ==> Concat(files[..f + 1]) == Concat(files[..f]) + files[f]
  {
    if f < |files| {
      assert files[..f + 1][..f] == files[..f];
      ConcatAt(files[..|files| - 1], f);
      assert files[..|files| - 1][..f] == files[..f];
    } else {
      assert files[..f] == files;
    }
  }
  // --- writing -----------------------------------------------------------------------------

  /** Writes one file from entry `i` on. It holds at least one entry and ends at the end of the input, or at the first
      user key at which it has to. */
  method WriteFile(input: seq<Entry>, i: nat, splitters: Splitters) returns (n: nat)
    requires i < |input| && Ascending(input) && splitters.config.Valid()
    requires splitters.splitOnNextUserKey ==> splitters.savedKey == input[i].key
    modifies splitters
    ensures i < n <= |input| && (n < |input| ==> input[n - 1].key < input[n].key)
    ensures NotDueInside(splitters.config, input[i..n], old(splitters.splitOnNextUserKey))
    ensures n < |input| ==>
      && Due(splitters.config, input[i..n], old(splitters.splitOnNextUserKey), input[n].key)
      && (splitters.splitOnNextUserKey <==>
            Postpones(splitters.config, input[i..n], old(splitters.splitOnNextUserKey), input[n].key))
      && (splitters.splitOnNextUserKey ==> splitters.savedKey == input[n].key)
  {
    hide FullBefore, PastLimit, IsGrandparentLimit, IsL0Limit, NotDueInside;
    splitters.OnNewOutput(input[i].key);
    ghost var config, postponed := splitters.config, splitters.splitOnNextUserKey;
    n := i;
    NothingWritten(config, input, i, postponed);
    while n < |input|
      invariant i <= n <= |input|
      invariant n == i ==> splitters.LimitsPast(input[i].key)
      invariant splitters.splitOnNextUserKey ==> splitters.savedKey == if n == i then input[i].key else input[n - 1].key
      invariant n > i ==> splitters.Within(input[n - 1].key)
      invariant IsL0Limit(config, input[i].key, splitters.l0Limit)
      invariant IsGrandparentLimit(config, input[i].key, splitters.grandparentLimit)
      invariant splitters.splitOnNextUserKey <==> postponed || FullBefore(config, input[i..n])
      invariant NotDueInside(config, input[i..n], postponed)
    {
      var table := if n == i then None else Some(input[i..n]);
      LimitIs(splitters, input[i].key, input[n].key);
      FullStep(config, input, i, n);
      var split := splitters.ShouldSplitBefore(input[n].key, table);
      if split { break; }
      NotDueStep(config, input, i, n, postponed);
      n := n + 1;
    }
  }

  lemma {:induction false} NothingWritten(config: Config, input: seq<Entry>, i: nat, postponed: bool)
    requires i <= |input|
    ensures NotDueInside(config, input[i..i], postponed) && !FullBefore(config, input[i..i])
  {
  }

  /** The key is past one of the limits that were set exactly if it is past a limit of the file. */
  lemma {:induction false} LimitIs(splitters: Splitters, first: Key, next: Key)
    requires IsL0Limit(splitters.config, first, splitters.l0Limit)
    requires IsGrandparentLimit(splitters.config, first, splitters.grandparentLimit)
    ensures splitters.Within(next) <==> !PastLimit(splitters.config, first, next)
  {
    hide IsGrandparentLimit;
    var config := splitters.config;
    forall limit | IsGrandparentLimit(config, first, Some(limit)) ensures splitters.grandparentLimit == Some(limit) {
      GrandparentLimitUnique(config, first, splitters.grandparentLimit, Some(limit));
    }
    if splitters.l0Limit.Some? { assert IsL0Limit(config, first, Some(splitters.l0Limit.value)); }
    if splitters.grandparentLimit.Some? { assert IsGrandparentLimit(config, first, Some(splitters.grandparentLimit.value)); }
  }

  lemma {:induction false} FullStep(config: Config, input: seq<Entry>, i: nat, n: nat)
    requires i <= n < |input|
    ensures FullBefore(config, input[i..n + 1]) <==> FullBefore(config, input[i..n]) || (n > i && Full(config, input[i..n]))
  {
    hide Full;
    var file, more := input[i..n], input[i..n + 1];
    forall m: nat | 0 < m <= |file| ensures more[..m] == file[..m] { PrefixSame(input, i, n, m); }
    assert file[..|file|] == file;
  }

  lemma {:induction false} PrefixSame(input: seq<Entry>, i: nat, n: nat, k: nat)
    requires i + k <= n < |input|
    ensures input[i..n + 1][..k] == input[i..n][..k]
  {
    assert input[i..n + 1][..k] == input[i..i + k];
    assert input[i..n][..k] == input[i..i + k];
  }

  lemma {:induction false} NotDueStep(config: Config, input: seq<Entry>, i: nat, n: nat, postponed: bool)
    requires i <= n < |input| && NotDueInside(config, input[i..n], postponed)
    requires n > i && input[n - 1].key != input[n].key ==> !Due(config, input[i..n], postponed, input[n].key)
    ensures NotDueInside(config, input[i..n + 1], postponed)
  {
    hide Due;
    var file, more := input[i..n], input[i..n + 1];
    forall k | 0 < k < |more| && more[k - 1].key != more[k].key ensures !Due(config, more[..k], postponed, more[k].key) {
      PrefixSame(input, i, n, k);
      if k < |file| { assert file[k - 1].key != file[k].key; } else { assert file[..k] == file; }
    }
  }

  // --- what that means ---------------------------------------------------------------------

  lemma {:induction false} InOrder(file: seq<Entry>, e: Entry)
    requires Ascending(file) && e in file
    ensures file[0].key <= e.key <= file[|file| - 1].key
  {
    var k :| 0 <= k < |file| && file[k] == e;
  }

  /** The first entry of the last user key. */
  lemma {:induction false} LastKeyStarts(file: seq<Entry>, n: nat) returns (k: nat)
    requires Ascending(file) && n < |file|
    ensures k <= n && file[k].key == file[n].key && (k > 0 ==> file[k - 1].key < file[k].key)
  {
    k := n;
    if n > 0 && file[n - 1].key == file[n].key { k := LastKeyStarts(file, n - 1); }
  }

  /** No key of the file lies past a limit of its first one. */
  lemma {:induction false} WithinLimits(config: Config, file: seq<Entry>, postponed: bool, e: Entry)
    requires file != [] && Ascending(file) && NotDueInside(config, file, postponed) && e in file
    ensures !PastLimit(config, file[0].key, e.key)
  {
    hide IsL0Limit, IsGrandparentLimit;
    var n :| 0 <= n < |file| && file[n] == e;
    var k := LastKeyStarts(file, n);
    if k > 0 {
      assert !Due(config, file[..k], postponed, file[k].key);
    } else {
      LimitsAreAfter(config, file[0].key);
    }
  }

  lemma {:induction false} LimitsAreAfter(config: Config, first: Key)
    ensures !PastLimit(config, first, first)
  {
    forall limit | IsGrandparentLimit(config, first, Some(limit)) ensures first < limit {
      var n: nat :| FirstReached(config, first, n) && LimitFrom(config, first, n, Some(limit));
      var i: nat :| n <= i < |config.grandparents| && IsLimit(config, first, n, i, limit);
    }
  }

  /** A file that ends where it has to grows past its maximal size by no more than a user key, and reaches neither
      across a flush split key nor past the grandparent limit of its first key. */
  lemma {:induction false} CutFits(config: Config, file: seq<Entry>, postponed: bool)
    requires file != [] && Ascending(file) && NotDueInside(config, file, postponed)
    ensures SizeOk(config, file) && NoBridge(config, file) && OverlapOk(config, file)
    ensures postponed ==> forall e :: e in file ==> e.key == file[0].key
  {
    hide PastLimit, IsGrandparentLimit;
    forall e | e in file ensures !PastLimit(config, file[0].key, e.key) && file[0].key <= e.key {
      WithinLimits(config, file, postponed, e);
      InOrder(file, e);
    }
    forall m | 0 < m < |file| && Full(config, file[..m])
      ensures forall k :: m <= k < |file| ==> file[k].key == file[m].key
    {
      OneKeyMore(config, file, postponed, m);
    }
    forall limit, e, d | limit in config.l0Limits && e in file && d in file ensures !(e.key < limit < d.key) {
      if file[0].key < limit < d.key { L0Passed(config, file[0].key, limit, d.key); }
    }
    forall limit, e | e in file && IsGrandparentLimit(config, file[0].key, Some(limit)) ensures e.key <= limit {
      GrandparentPassed(config, file[0].key, limit, e.key);
    }
    if postponed { OneKeyOnly(config, file); }
  }

  lemma {:induction false} L0Passed(config: Config, first: Key, limit: Key, next: Key)
    requires limit in config.l0Limits && first < limit < next
    ensures PastLimit(config, first, next)
  {
    var least := LeastLimit(config, first, limit, |config.l0Limits|);
    assert IsL0Limit(config, first, Some(least));
  }

  /** The least of the first `n` flush split keys after `first`, or `limit`. */
  lemma {:induction false} LeastLimit(config: Config, first: Key, limit: Key, n: nat) returns (least: Key)
    requires first < limit && limit in config.l0Limits && n <= |config.l0Limits|
    ensures first < least <= limit && least in config.l0Limits
    ensures forall j :: 0 <= j < n && first < config.l0Limits[j] ==> least <= config.l0Limits[j]
  {
    least := limit;
    if n > 0 {
      least := LeastLimit(config, first, limit, n - 1);
      if first < config.l0Limits[n - 1] < least { least := config.l0Limits[n - 1]; }
    }
  }

  lemma {:induction false} GrandparentPassed(config: Config, first: Key, limit: Key, next: Key)
    requires IsGrandparentLimit(config, first, Some(limit))
    ensures limit < next ==> PastLimit(config, first, next)
  {
  }

  lemma {:induction false} OneKeyMore(config: Config, file: seq<Entry>, postponed: bool, m: nat)
    requires Ascending(file) && NotDueInside(config, file, postponed) && 0 < m < |file| && Full(config, file[..m])
    ensures forall k :: m <= k < |file| ==> file[k].key == file[m].key
  {
    hide PastLimit;
    forall j | m < j <= |file| ensures FullBefore(config, file[..j]) {
      assert file[..j][..m] == file[..m];
    }
    forall k | m <= k < |file| ensures file[k].key == file[m].key {
      var j := LastKeyStarts(file, k);
    }
  }

  lemma {:induction false} OneKeyOnly(config: Config, file: seq<Entry>)
    requires file != [] && Ascending(file) && NotDueInside(config, file, true)
    ensures forall e :: e in file ==> e.key == file[0].key
  {
    forall e | e in file ensures e.key == file[0].key {
      var n :| 0 <= n < |file| && file[n] == e;
      var k := LastKeyStarts(file, n);
    }
  }

  lemma {:induction false} ApartNone()
    ensures Apart([]) && Concat([]) == []
  {
  }

  lemma {:induction false} AddFile(files: seq<seq<Entry>>, input: seq<Entry>, i: nat, n: nat)
    requires i < n <= |input| && Ascending(input) && Apart(files) && Concat(files) == input[..i]
    requires i > 0 ==> input[i - 1].key < input[i].key
    ensures Apart(files + [input[i..n]]) && Concat(files + [input[i..n]]) == input[..n]
  {
    hide Apart;
    assert (files + [input[i..n]])[..|files|] == files;
    assert input[..n] == input[..i] + input[i..n];
    EarlierKeys(input, i, n);
    ApartAdd(files, input[i..n]);
  }

  lemma {:induction false} EarlierKeys(input: seq<Entry>, i: nat, n: nat)
    requires i < n <= |input| && Ascending(input) && (i > 0 ==> input[i - 1].key < input[i].key)
    ensures forall e, d :: e in input[..i] && d in input[i..n] ==> e.key < d.key
  {
    forall e, d | e in input[..i] && d in input[i..n] ensures e.key < d.key {
      var j :| 0 <= j < i && input[j] == e;
      var k :| i <= k < n && input[k] == d;
      assert input[j].key <= input[i - 1].key < input[i].key <= input[k].key;
    }
  }

  /** A whole flush: the files hold the input in order and no user key is in two of them. Every file ends at the first
      user key at which it has to and not before, which determines the files (`CutUnique`). So none grows past its
      maximal size by more than a user key, and none reaches across a flush split key or past the grandparent limit of
      its first key (`CutFits`). */
  method Flush(input: seq<Entry>, config: Config) returns (files: seq<seq<Entry>>)
    requires Ascending(input) && config.Valid()
    ensures Concat(files) == input && Apart(files) && Cut(config, files)
    ensures forall f :: 0 <= f < |files| ==>
      SizeOk(config, files[f]) && NoBridge(config, files[f]) && OverlapOk(config, files[f])
  {
    hide SizeOk, NoBridge, OverlapOk, Config.Valid, Apart, Concat, Cut, Due, NotDueInside, Postpones, Ascending;
    CutNothing(config);
    ApartNone();
    var splitters := new Splitters(config);
    files := [];
    var i := 0;
    while i < |input|
      invariant fresh(splitters) && splitters.config == config
      invariant i <= |input| && Concat(files) == input[..i] && Apart(files) && Cut(config, files) && NonEmpty(files)
      invariant i < |input| ==> Ready(config, files, splitters.splitOnNextUserKey, input[i].key)
      invariant 0 < i < |input| ==> input[i - 1].key < input[i].key
      invariant i < |input| && splitters.splitOnNextUserKey ==> splitters.savedKey == input[i].key
      invariant forall f :: 0 <= f < |files| ==>
        SizeOk(config, files[f]) && NoBridge(config, files[f]) && OverlapOk(config, files[f])
    {
      ghost var postponed := splitters.splitOnNextUserKey;
      var n := WriteFile(input, i, splitters);
      SliceAscends(input, i, n);
      CutFits(config, input[i..n], postponed);
      AddFile(files, input, i, n);
      AddCut(config, files, input[i..n], postponed);
      if n < |input| { NextReady(config, files, input[i..n], postponed, splitters.splitOnNextUserKey, input[n].key); }
      files := files + [input[i..n]];
      i := n;
    }
    assert input[..|input|] == input;
  }

  predicate NonEmpty(files: seq<seq<Entry>>) {
    forall f :: 0 <= f < |files| ==> files[f] != []
  }

  /** The files end before `next`, and the splitters know whether a size split is postponed to there. */
  ghost predicate Ready(config: Config, files: seq<seq<Entry>>, postponed: bool, next: Key)
    requires NonEmpty(files)
  {
    && postponed == PostponedTo(config, files, |files|, next)
    && (files != [] ==>
          var last, f := files[|files| - 1], |files| - 1;
          last[|last| - 1].key != next && Due(config, last, PostponedTo(config, files, f, last[0].key), next))
  }

  lemma {:induction false} SliceAscends(input: seq<Entry>, i: nat, n: nat)
    requires Ascending(input) && i <= n <= |input|
    ensures Ascending(input[i..n])
  {
  }

  lemma {:induction false} AddCut(config: Config, files: seq<seq<Entry>>, file: seq<Entry>, postponed: bool)
    requires Cut(config, files) && NonEmpty(files) && file != [] && Ready(config, files, postponed, file[0].key)
    requires NotDueInside(config, file, postponed)
    ensures Cut(config, files + [file]) && NonEmpty(files + [file])
  {
    hide Cut, Due, NotDueInside;
    CutAdd(config, files, file);
  }

  lemma {:induction false} NextReady(
      config: Config, files: seq<seq<Entry>>, file: seq<Entry>, postponed: bool, after: bool, next: Key)
    requires NonEmpty(files) && file != [] && Ready(config, files, postponed, file[0].key) && NonEmpty(files + [file])
    requires file[|file| - 1].key != next && Due(config, file, postponed, next)
    requires after == Postpones(config, file, postponed, next)
    ensures Ready(config, files + [file], after, next)
  {
    hide Due, Postpones;
    var all: seq<seq<Entry>> := files + [file];
    assert all[..|files|] == files[..|files|];
    PostponedSame(config, files, all, |files|, file[0].key);
  }
}
