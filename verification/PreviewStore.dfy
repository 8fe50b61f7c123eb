/**
  src/workspace_edits.rs: the bounded store of rename previews, each of which can be taken
  at most once and for ten minutes at most.  Instants and durations are milliseconds.
 */
module PreviewStore {
  import opened Wrappers
  import opened RenameTransaction
  import Utf8
  import WorkspaceEdits

  const MAX_PENDING_PREVIEWS := 16
  const MAX_PENDING_BYTES := 64 * 1024 * 1024
  const PREVIEW_LIFETIME := 10 * 60 * 1000
  const USIZE_MAX := 0xFFFF_FFFF_FFFF_FFFF

  function SaturatingAdd(a: nat, b: nat): nat {
    if a + b <= USIZE_MAX then a + b else USIZE_MAX
  }

  function SaturatingSub(a: nat, b: nat): nat {
    if b <= a then a - b else 0
  }

  datatype Preview = Preview(id: string, server: string, newName: string, files: seq<FilePreview>, createdAt: nat)

  function EditBytes(edits: seq<WorkspaceEdits.RenameEdit>): nat {
    if edits == [] then 0
    else |Utf8.Encode(edits[0].oldText)| + |Utf8.Encode(edits[0].newText)| + EditBytes(edits[1..])
  }

  function FileBytes(files: seq<FilePreview>): nat {
    if files == [] then 0
    else |Utf8.Encode(files[0].before)| + EditBytes(files[0].edits) + FileBytes(files[1..])
  }

  /** `RenamePreview::retained_bytes` */
  function RetainedBytes(preview: Preview): nat {
    FileBytes(preview.files)
  }

  function Sum(previews: seq<Preview>): nat {
    if previews == [] then 0 else RetainedBytes(previews[0]) + Sum(previews[1..])
  }

  /** `now.duration_since(created_at) >= PREVIEW_LIFETIME`; the difference of instants saturates at zero. */
  predicate Expired(preview: Preview, now: nat) {
    SaturatingSub(now, preview.createdAt) >= PREVIEW_LIFETIME
  }

  function DropExpired(previews: seq<Preview>, now: nat): seq<Preview> {
    if previews != [] && Expired(previews[0], now) then DropExpired(previews[1..], now) else previews
  }

  predicate Fits(previews: seq<Preview>, bytes: nat) {
    |previews| < MAX_PENDING_PREVIEWS && Sum(previews) + bytes <= MAX_PENDING_BYTES
  }

  /** The previews that remain when the oldest are evicted until another of `bytes` bytes fits. */
  function Evict(previews: seq<Preview>, bytes: nat): seq<Preview> {
    if previews == [] || Fits(previews, bytes) then previews else Evict(previews[1..], bytes)
  }

  /** The position of the first preview with the given identifier, `|previews|` when there is none. */
  function IndexOf(previews: seq<Preview>, id: string): (i: nat)
    ensures i <= |previews|
    ensures i < |previews| ==> previews[i].id == id
    ensures forall j :: 0 <= j < i ==> previews[j].id != id
  {
    if previews == [] || previews[0].id == id then 0 else 1 + IndexOf(previews[1..], id)
  }

  /** `at` is the time of the check for expired previews; a preview is created after it. */
  datatype Operation = Insert(preview: Preview, at: nat) | Take(id: string, at: nat)

  /** The last time that the operation reads. */
  function Done(op: Operation): nat {
    match op
    case Insert(preview, _) => preview.createdAt
    case Take(_, at) => at
  }

  function Step(previews: seq<Preview>, op: Operation): seq<Preview> {
    var unexpired := DropExpired(previews, op.at);
    match op
    case Insert(preview, _) =>
      if RetainedBytes(preview) > MAX_PENDING_BYTES then unexpired
      else Evict(unexpired, RetainedBytes(preview)) + [preview]
    case Take(id, _) =>
      var i := IndexOf(unexpired, id);
      if i == |unexpired| then unexpired else unexpired[..i] + unexpired[i + 1..]
  }

  datatype InsertError = TooLarge(retainedBytes: nat)
  datatype PreviewIdError = PreviewIdError(previewId: string)

  class PreviewStore {
    var previews: seq<Preview>
    var retainedBytes: nat

    ghost predicate Valid()
      reads this
    {
      && retainedBytes == Sum(previews) <= MAX_PENDING_BYTES
      && |previews| <= MAX_PENDING_PREVIEWS
    }

    constructor ()
      ensures Valid() && previews == []
    {
      previews, retainedBytes := [], 0;
    }

    method RemoveExpired(now: nat)
      requires Valid()
      modifies this
      ensures Valid() && previews == DropExpired(old(previews), now)
    {
      while previews != [] && Expired(previews[0], now)
        invariant Valid()
        invariant DropExpired(previews, now) == DropExpired(old(previews), now)
        decreases |previews|
      {
        var expired := previews[0];
        previews := previews[1..];
        retainedBytes := SaturatingSub(retainedBytes, RetainedBytes(expired));
      }
    }

    /** The identifier stands for a fresh UUID, `now` and `createdAt` for the two readings of the clock. */
    method Insert(id: string, server: string, newName: string, files: seq<FilePreview>, now: nat, createdAt: nat)
      returns (r: Result<Preview, InsertError>)
      requires Valid()
      modifies this
      ensures Valid()
      ensures var preview := Preview(id, server, newName, files, createdAt);
              && previews == Step(old(previews), Operation.Insert(preview, now))
              && r == if RetainedBytes(preview) > 67108864 then Err(TooLarge(RetainedBytes(preview))) else Ok(preview)
    {
      RemoveExpired(now);
      var preview := Preview(id, server, newName, files, createdAt);
      var bytes := RetainedBytes(preview);
      if bytes > MAX_PENDING_BYTES {
        return Err(TooLarge(bytes));
      }
      ghost var unexpired := previews;
      while |previews| >= MAX_PENDING_PREVIEWS || SaturatingAdd(retainedBytes, bytes) > MAX_PENDING_BYTES
        invariant Valid()
        invariant Evict(previews, bytes) == Evict(unexpired, bytes)
        decreases |previews|
      {
        assert previews != [];
        var evicted := previews[0];
        previews := previews[1..];
        retainedBytes := SaturatingSub(retainedBytes, RetainedBytes(evicted));
      }
      SumConcat(previews, [preview]);
      retainedBytes := retainedBytes + bytes;
      previews := previews + [preview];
      r := Ok(preview);
    }

    method Take(id: string, now: nat) returns (r: Result<Preview, PreviewIdError>)
      requires Valid()
      modifies this
      ensures Valid()
      ensures previews == Step(old(previews), Operation.Take(id, now))
      ensures var unexpired := DropExpired(old(previews), now);
              var i := IndexOf(unexpired, id);
              r == if i == |unexpired| then Err(PreviewIdError(id)) else Ok(unexpired[i])
    {
      RemoveExpired(now);
      var i := IndexOf(previews, id);
      if i == |previews| {
        return Err(PreviewIdError(id));
      }
      var preview := previews[i];
      SumWithout(previews, i);
      previews := previews[..i] + previews[i + 1..];
      retainedBytes := SaturatingSub(retainedBytes, RetainedBytes(preview));
      r := Ok(preview);
    }
  }

  lemma {:induction false} SumConcat(a: seq<Preview>, b: seq<Preview>)
    ensures Sum(a + b) == Sum(a) + Sum(b)
  {
    if a == [] {
      assert a + b == b;
    } else {
      assert (a + b)[1..] == a[1..] + b;
      SumConcat(a[1..], b);
    }
  }

  lemma {:induction false} SumWithout(previews: seq<Preview>, i: nat)
    requires i < |previews|
    ensures Sum(previews) == Sum(previews[..i] + previews[i + 1..]) + RetainedBytes(previews[i])
  {
    hide Sum;
    assert previews == previews[..i] + ([previews[i]] + previews[i + 1..]);
    SumConcat(previews[..i], [previews[i]] + previews[i + 1..]);
    SumConcat([previews[i]], previews[i + 1..]);
    SumConcat(previews[..i], previews[i + 1..]);
    SumOne(previews[i]);
  }

  /** Eviction keeps the longest suffix that leaves room. */
  lemma {:induction false} EvictKeepsLongestSuffix(previews: seq<Preview>, bytes: nat) returns (k: nat)
    requires bytes <= MAX_PENDING_BYTES
    ensures k <= |previews| && Evict(previews, bytes) == previews[k..]
    ensures Fits(previews[k..], bytes)
    ensures forall j :: 0 <= j < k ==> !Fits(previews[j..], bytes)
  {
    if Fits(previews, bytes) {
      k := 0;
      assert previews[0..] == previews;
    } else {
      var m := EvictKeepsLongestSuffix(previews[1..], bytes);
      k := m + 1;
      assert previews[1..][m..] == previews[k..];
      forall j | 0 <= j < k
        ensures !Fits(previews[j..], bytes)
      {
        if j == 0 {
          assert previews[0..] == previews;
        } else {
          assert previews[1..][j - 1..] == previews[j..];
        }
      }
    }
  }

  /** Previews stand in the order of their creation. */
  predicate Chronological(previews: seq<Preview>) {
    forall i, j :: 0 <= i <= j < |previews| ==> previews[i].createdAt <= previews[j].createdAt
  }

  /** Looking at the front only removes everything that has expired, and nothing else. */
  lemma {:induction false} DropExpiredIsExact(previews: seq<Preview>, now: nat) returns (k: nat)
    requires Chronological(previews)
    ensures k <= |previews| && DropExpired(previews, now) == previews[k..]
    ensures forall i :: 0 <= i < |previews| ==> (Expired(previews[i], now) <==> i < k)
  {
    if previews != [] && Expired(previews[0], now) {
      var m := DropExpiredIsExact(previews[1..], now);
      k := m + 1;
      assert previews[1..][m..] == previews[k..];
      forall i | 0 < i < |previews|
        ensures Expired(previews[i], now) <==> i < k
      {
        assert previews[i] == previews[1..][i - 1];
      }
    } else {
      k := 0;
      assert previews[0..] == previews;
    }
  }

  // ----- whole runs -----

  /** What the store holds after the first `n` operations. */
  function After(ops: seq<Operation>, n: nat): seq<Preview>
    requires n <= |ops|
  {
    if n == 0 then [] else Step(After(ops, n - 1), ops[n - 1])
  }

  /** What operation `n` takes out, if it takes anything. */
  function Taken(ops: seq<Operation>, n: nat): Option<Preview>
    requires n < |ops|
  {
    if ops[n].Insert? then None
    else
      var unexpired := DropExpired(After(ops, n), ops[n].at);
      var i := IndexOf(unexpired, ops[n].id);
      if i == |unexpired| then None else Some(unexpired[i])
  }

  /** The clock never runs backwards and no identifier is given out twice. */
  ghost predicate Run(ops: seq<Operation>) {
    && (forall i :: 0 <= i < |ops| ==> ops[i].at <= Done(ops[i]))
    && (forall i, j :: 0 <= i < j < |ops| ==> Done(ops[i]) <= ops[j].at)
    && forall i, j :: 0 <= i < j < |ops| && ops[i].Insert? && ops[j].Insert? ==> ops[i].preview.id != ops[j].preview.id
  }

  ghost predicate InsertedBy(ops: seq<Operation>, n: nat, preview: Preview) {
    && n <= |ops|
    && exists k :: 0 <= k < n && Inserts(ops[k], preview)
  }

  predicate Inserts(op: Operation, preview: Preview) {
    op.Insert? && op.preview == preview
  }

  lemma {:induction false} InsertShape(previews: seq<Preview>, preview: Preview, at: nat) returns (k: nat)
    requires Chronological(previews)
    ensures k <= |previews|
    ensures RetainedBytes(preview) > MAX_PENDING_BYTES ==> Step(previews, Insert(preview, at)) == previews[k..]
    ensures RetainedBytes(preview) <= MAX_PENDING_BYTES ==>
              Step(previews, Insert(preview, at)) == previews[k..] + [preview] &&
              Fits(previews[k..], RetainedBytes(preview))
    ensures forall x :: 0 <= x < k && !Expired(previews[x], at) ==>
              RetainedBytes(preview) <= MAX_PENDING_BYTES && !Fits(previews[x..], RetainedBytes(preview))
  {
    hide Evict, DropExpired, Fits, RetainedBytes, Expired, Chronological;
    var expired := DropExpiredIsExact(previews, at);
    k := expired;
    if RetainedBytes(preview) <= MAX_PENDING_BYTES {
      var m := EvictKeepsLongestSuffix(previews[k..], RetainedBytes(preview));
      assert previews[k..][m..] == previews[k + m..];
      k := k + m;
      forall x | expired <= x < k
        ensures !Fits(previews[x..], RetainedBytes(preview))
      {
        assert previews[expired..][x - expired..] == previews[x..];
      }
    }
  }

  lemma {:induction false} SliceOfSuffix(previews: seq<Preview>, k: nat, i: nat)
    requires k <= i <= |previews|
    ensures previews[k..][..i - k] == previews[k..i]
    ensures i < |previews| ==> previews[k..][i - k + 1..] == previews[i + 1..]
    ensures i == |previews| ==> previews[k..i] + [] == previews[k..]
  {
  }

  lemma {:induction false} TakeShape(previews: seq<Preview>, id: string, at: nat) returns (k: nat, i: nat)
    requires Chronological(previews)
    ensures k <= i <= |previews|
    ensures Step(previews, Take(id, at)) == previews[k..i] + (if i < |previews| then previews[i + 1..] else [])
    ensures i < |previews| ==> previews[i].id == id && !Expired(previews[i], at)
    ensures forall j :: k <= j < i ==> previews[j].id != id
  {
    hide DropExpired, Expired, IndexOf, Chronological, Evict, RetainedBytes, Fits;
    k := DropExpiredIsExact(previews, at);
    var unexpired := previews[k..];
    i := k + IndexOf(unexpired, id);
    forall j | k <= j < |previews|
      ensures previews[j] == unexpired[j - k]
    {
    }
    SliceOfSuffix(previews, k, i);
  }

  /** One operation drops a prefix; an insertion then appends, a take then removes position `i`. */
  lemma {:induction false} StepShape(previews: seq<Preview>, op: Operation) returns (k: nat, i: nat)
    requires Chronological(previews)
    ensures k <= i <= |previews|
    ensures op.Insert? && RetainedBytes(op.preview) > MAX_PENDING_BYTES ==> Step(previews, op) == previews[k..]
    ensures op.Insert? && RetainedBytes(op.preview) <= MAX_PENDING_BYTES ==>
              Step(previews, op) == previews[k..] + [op.preview] && Fits(previews[k..], RetainedBytes(op.preview))
    ensures op.Take? ==>
              Step(previews, op) == previews[k..i] + (if i < |previews| then previews[i + 1..] else [])
    ensures op.Take? && i < |previews| ==> previews[i].id == op.id && !Expired(previews[i], op.at)
    ensures op.Take? ==> forall j :: k <= j < i ==> previews[j].id != op.id
  {
    if op.Insert? {
      k := InsertShape(previews, op.preview, op.at);
      i := |previews|;
    } else {
      k, i := TakeShape(previews, op.id, op.at);
    }
  }

  /** An operation adds nothing but what it inserts, and keeps the order. */
  lemma {:induction false} StepMembers(previews: seq<Preview>, op: Operation)
    requires Chronological(previews)
    requires op.at <= Done(op) && forall x :: 0 <= x < |previews| ==> previews[x].createdAt <= op.at
    ensures Chronological(Step(previews, op))
    ensures forall p :: p in Step(previews, op) ==> p in previews || Inserts(op, p)
  {
    hide Step, RetainedBytes, Fits, Expired;
    var k, i := StepShape(previews, op);
  }

  /** What has been inserted before was created before. */
  lemma {:induction false} CreatedBefore(ops: seq<Operation>, n: nat, preview: Preview)
    requires Run(ops) && n < |ops| && InsertedBy(ops, n, preview)
    ensures preview.createdAt <= ops[n].at && InsertedBy(ops, n + 1, preview)
  {
    var j :| 0 <= j < n && Inserts(ops[j], preview);
    assert Done(ops[j]) <= ops[n].at;
  }

  ghost predicate Recorded(ops: seq<Operation>, n: nat, previews: seq<Preview>) {
    && n <= |ops|
    && (Chronological(previews) && forall p :: p in previews ==> InsertedBy(ops, n, p))
  }

  lemma {:induction false} StepRecorded(ops: seq<Operation>, n: nat, previews: seq<Preview>)
    requires Run(ops) && n < |ops| && Recorded(ops, n, previews)
    ensures Recorded(ops, n + 1, Step(previews, ops[n]))
  {
    assert ops[n].at <= Done(ops[n]);
    hide Step, Run, InsertedBy, Chronological, Inserts;
    forall p | p in previews
      ensures InsertedBy(ops, n + 1, p) && p.createdAt <= ops[n].at
    {
      CreatedBefore(ops, n, p);
    }
    StepMembers(previews, ops[n]);
    forall p | p in Step(previews, ops[n])
      ensures InsertedBy(ops, n + 1, p)
    {
      if p !in previews {
        JustInserted(ops, n, p);
      }
    }
  }

  lemma {:induction false} AlwaysRecorded(ops: seq<Operation>, n: nat)
    requires Run(ops) && n <= |ops|
    ensures Recorded(ops, n, After(ops, n))
  {
    hide Step, Run, InsertedBy;
    if n > 0 {
      AlwaysRecorded(ops, n - 1);
      StepRecorded(ops, n - 1, After(ops, n - 1));
    }
  }

  /** Everything in the store was inserted unaltered, and stands in the order of creation. */
  lemma {:induction false} StoreHistory(ops: seq<Operation>, n: nat)
    requires Run(ops) && n <= |ops|
    ensures Chronological(After(ops, n))
    ensures forall i :: 0 <= i < |After(ops, n)| ==> InsertedBy(ops, n, After(ops, n)[i])
  {
    hide After, Run, InsertedBy, Chronological;
    AlwaysRecorded(ops, n);
  }

  lemma {:induction false} JustInserted(ops: seq<Operation>, n: nat, preview: Preview)
    requires n < |ops| && Inserts(ops[n], preview)
    ensures InsertedBy(ops, n + 1, preview)
  {
  }

  predicate WithinLimits(previews: seq<Preview>) {
    |previews| <= 16 && Sum(previews) <= 67108864
  }

  lemma {:induction false} StepKeepsLimits(previews: seq<Preview>, op: Operation)
    requires Chronological(previews) && WithinLimits(previews)
    ensures WithinLimits(Step(previews, op))
  {
    hide Step, Sum;
    var k, i := StepShape(previews, op);
    SuffixKeeps(previews, k);
    if op.Insert? {
      SumConcat(previews[k..], [op.preview]);
      SumOne(op.preview);
    } else if i < |previews| {
      assert previews[k..][..i - k] == previews[k..i] && previews[k..][i - k + 1..] == previews[i + 1..];
      SumWithout(previews[k..], i - k);
    } else {
      assert previews[k..i] + [] == previews[k..];
    }
  }

  lemma {:induction false} SumOne(preview: Preview)
    ensures Sum([preview]) == RetainedBytes(preview)
  {
    assert [preview][1..] == [];
  }

  /** The store never holds more than 16 previews or 64 MiB. */
  lemma {:induction false} StoreLimits(ops: seq<Operation>, n: nat)
    requires Run(ops) && n <= |ops|
    ensures WithinLimits(After(ops, n))
  {
    hide Step;
    if n > 0 {
      StoreLimits(ops, n - 1);
      StoreHistory(ops, n - 1);
      StepKeepsLimits(After(ops, n - 1), ops[n - 1]);
    }
  }

  lemma {:induction false} SuffixKeeps(previews: seq<Preview>, k: nat)
    requires k <= |previews|
    ensures Chronological(previews) ==> Chronological(previews[k..])
    ensures Sum(previews[k..]) <= Sum(previews)
    ensures forall p :: p in previews[k..] ==> p in previews
  {
    assert previews == previews[..k] + previews[k..];
    SumConcat(previews[..k], previews[k..]);
  }

  lemma {:induction false} TakenShape(ops: seq<Operation>, n: nat) returns (i: nat)
    requires Run(ops) && n < |ops| && Taken(ops, n).Some?
    ensures i < |After(ops, n)| && Taken(ops, n) == Some(After(ops, n)[i])
    ensures After(ops, n)[i].id == ops[n].id && !Expired(After(ops, n)[i], ops[n].at)
  {
    StoreHistory(ops, n);
    var previews := After(ops, n);
    var k := DropExpiredIsExact(previews, ops[n].at);
    i := k + IndexOf(previews[k..], ops[n].id);
    assert previews[k..][i - k] == previews[i];
  }

  /** A preview that is taken is one that was inserted earlier, unaltered, less than ten minutes ago. */
  lemma {:induction false} TakenIsFreshAndUnaltered(ops: seq<Operation>, n: nat)
    requires Run(ops) && n < |ops| && Taken(ops, n).Some?
    ensures var p := Taken(ops, n).value;
            p.id == ops[n].id && InsertedBy(ops, n, p) && 0 <= ops[n].at - p.createdAt < 600000
  {
    hide Step;
    var i := TakenShape(ops, n);
    StoreHistory(ops, n);
    CreatedBefore(ops, n, After(ops, n)[i]);
  }

  predicate Absent(previews: seq<Preview>, id: string) {
    forall x :: 0 <= x < |previews| ==> previews[x].id != id
  }

  lemma {:induction false} StaysAbsent(ops: seq<Operation>, i: nat, n: nat, id: string)
    requires Run(ops) && i <= n <= |ops|
    requires Absent(After(ops, i), id)
    requires forall k :: i <= k < n && ops[k].Insert? ==> ops[k].preview.id != id
    ensures Absent(After(ops, n), id)
  {
    hide Step, Run, Chronological, Absent, InsertedBy;
    if i < n {
      StaysAbsent(ops, i, n - 1, id);
      StoreHistory(ops, n - 1);
      StepKeepsAbsent(After(ops, n - 1), ops[n - 1], id);
    }
  }

  lemma {:induction false} StepKeepsAbsent(previews: seq<Preview>, op: Operation, id: string)
    requires Chronological(previews) && Absent(previews, id) && (op.Insert? ==> op.preview.id != id)
    ensures Absent(Step(previews, op), id)
  {
    hide Step, Chronological, RetainedBytes, Expired, Fits;
    var k, i := StepShape(previews, op);
  }

  predicate DistinctIds(previews: seq<Preview>) {
    forall i, j :: 0 <= i < j < |previews| ==> previews[i].id != previews[j].id
  }

  lemma {:induction false} SuffixIds(previews: seq<Preview>, k: nat, id: string)
    requires DistinctIds(previews) && k <= |previews|
    ensures DistinctIds(previews[k..]) && (Absent(previews, id) ==> Absent(previews[k..], id))
  {
  }

  lemma {:induction false} DistinctAppend(previews: seq<Preview>, preview: Preview)
    requires DistinctIds(previews) && Absent(previews, preview.id)
    ensures DistinctIds(previews + [preview])
  {
  }

  lemma {:induction false} DistinctWithout(previews: seq<Preview>, k: nat, i: nat)
    requires DistinctIds(previews) && k <= i <= |previews|
    ensures DistinctIds(previews[k..i] + if i < |previews| then previews[i + 1..] else [])
  {
  }

  /** An identifier that is only now given out is not in the store yet. */
  lemma {:induction false} FreshIsAbsent(ops: seq<Operation>, n: nat)
    requires Run(ops) && n < |ops| && ops[n].Insert?
    ensures Absent(After(ops, n), ops[n].preview.id)
  {
    hide Step, After, Chronological;
    StoreHistory(ops, n);
    var previews := After(ops, n);
    forall x | 0 <= x < |previews|
      ensures previews[x].id != ops[n].preview.id
    {
      assert InsertedBy(ops, n, previews[x]);
    }
  }

  lemma {:induction false} StepKeepsDistinct(previews: seq<Preview>, op: Operation)
    requires Chronological(previews) && DistinctIds(previews) && (op.Insert? ==> Absent(previews, op.preview.id))
    ensures DistinctIds(Step(previews, op))
  {
    hide Step, DistinctIds, Absent, Chronological, RetainedBytes, Expired, Fits;
    var k, i := StepShape(previews, op);
    SuffixIds(previews, k, if op.Insert? then op.preview.id else op.id);
    if op.Insert? {
      DistinctAppend(previews[k..], op.preview);
    } else {
      DistinctWithout(previews, k, i);
    }
  }

  /** Two previews in the store never share an identifier. */
  lemma {:induction false} IdentifiersDistinct(ops: seq<Operation>, n: nat)
    requires Run(ops) && n <= |ops|
    ensures DistinctIds(After(ops, n))
  {
    hide Step, Absent, Run, Chronological, InsertedBy;
    if n > 0 {
      IdentifiersDistinct(ops, n - 1);
      StoreHistory(ops, n - 1);
      if ops[n - 1].Insert? {
        FreshIsAbsent(ops, n - 1);
      }
      StepKeepsDistinct(After(ops, n - 1), ops[n - 1]);
    }
  }

  lemma {:induction false} GoneAfterTaking(ops: seq<Operation>, n: nat)
    requires Run(ops) && n < |ops| && Taken(ops, n).Some?
    ensures Absent(After(ops, n + 1), ops[n].id)
  {
    hide Step;
    IdentifiersDistinct(ops, n);
    StoreHistory(ops, n);
    var t := TakenShape(ops, n);
    var previews := After(ops, n);
    var k, i := StepShape(previews, ops[n]);
    TakenIsAtShape(previews, ops[n], k, i, t);
  }

  lemma {:induction false} TakenIsAtShape(previews: seq<Preview>, op: Operation, k: nat, i: nat, t: nat)
    requires DistinctIds(previews) && op.Take? && k <= i <= |previews|
    requires t < |previews| && previews[t].id == op.id
    requires i < |previews| ==> previews[i].id == op.id
    requires forall j :: k <= j < i ==> previews[j].id != op.id
    ensures i < |previews| ==> i == t
    ensures i == |previews| ==> t < k
  {
  }

  /** No preview is taken twice. */
  lemma {:induction false} NeverTakenTwice(ops: seq<Operation>, i: nat, j: nat)
    requires Run(ops) && i < j < |ops|
    requires Taken(ops, i).Some? && Taken(ops, j).Some?
    ensures Taken(ops, i).value.id != Taken(ops, j).value.id
  {
    hide Step, Taken;
    var p := Taken(ops, i).value;
    TakenIsFreshAndUnaltered(ops, i);
    TakenIsFreshAndUnaltered(ops, j);
    var k :| 0 <= k < i && Inserts(ops[k], p);
    GoneAfterTaking(ops, i);
    StaysAbsent(ops, i + 1, j, p.id);
    var x := TakenShape(ops, j);
  }

  // ----- what stays can be taken -----

  /** The preview at `x`, all younger ones and one more keep to 16 previews and 64 MiB. */
  predicate LeavesRoom(previews: seq<Preview>, x: nat, preview: Preview) {
    && x <= |previews|
    && |previews| - x < 16 && Sum(previews[x..]) + RetainedBytes(preview) <= 67108864
  }

  /** A suffix of a suffix fits when the suffix does. */
  lemma {:induction false} ShorterFits(previews: seq<Preview>, k: nat, x: nat, bytes: nat)
    requires k <= x <= |previews| && Fits(previews[k..], bytes)
    ensures Fits(previews[x..], bytes)
  {
    hide Sum;
    assert previews[k..][x - k..] == previews[x..];
    SuffixKeeps(previews[k..], x - k);
  }

  /** Which previews an insertion keeps: those with which it still fits. */
  lemma {:induction false} EvictedExactly(previews: seq<Preview>, preview: Preview, at: nat, x: nat)
    requires Chronological(previews) && DistinctIds(previews) && Absent(previews, preview.id)
    requires x < |previews| && at < previews[x].createdAt + 600000
    ensures previews[x] in Step(previews, Insert(preview, at)) <==>
            RetainedBytes(preview) > 67108864 || LeavesRoom(previews, x, preview)
  {
    assert !Expired(previews[x], at);
    var k := InsertShape(previews, preview, at);
    hide Chronological, Expired, Step, RetainedBytes, Sum;
    if k <= x {
      if RetainedBytes(preview) <= 67108864 {
        ShorterFits(previews, k, x, RetainedBytes(preview));
      }
      assert previews[x] == previews[k..][x - k];
    } else {
      forall y | k <= y < |previews|
        ensures previews[y].id != previews[x].id
      {
      }
    }
  }

  /** A take keeps everything unexpired but what it takes. */
  lemma {:induction false} TakeKeepsOthers(previews: seq<Preview>, id: string, at: nat, x: nat)
    requires Chronological(previews) && x < |previews| && at < previews[x].createdAt + 600000 && previews[x].id != id
    ensures previews[x] in Step(previews, Take(id, at))
  {
    var k := DropExpiredIsExact(previews, at);
    assert !Expired(previews[x], at);
    hide Chronological, Expired, DropExpired;
    var unexpired := previews[k..];
    var i := IndexOf(unexpired, id);
    assert unexpired[x - k] == previews[x];
    if i < |unexpired| {
      assert previews[x] == if x - k < i then unexpired[..i][x - k] else unexpired[i + 1..][x - k - i - 1];
    }
  }

  /** Operation `m` inserts a preview for which `p` has to make room. */
  ghost predicate Evicts(ops: seq<Operation>, m: nat, p: Preview) {
    && m < |ops|
    && ops[m].Insert? && RetainedBytes(ops[m].preview) <= 67108864
    && exists x :: 0 <= x < |After(ops, m)| && After(ops, m)[x] == p && !LeavesRoom(After(ops, m), x, ops[m].preview)
  }

  /** Between the insertion at `k` and operation `n` the preview was neither taken nor evicted. */
  ghost predicate Undisturbed(ops: seq<Operation>, k: nat, n: nat, p: Preview) {
    && n <= |ops|
    && forall m :: k < m < n ==> !(ops[m].Take? && ops[m].id == p.id) && !Evicts(ops, m, p)
  }

  lemma {:induction false} StepKeepsIt(ops: seq<Operation>, m: nat, p: Preview)
    requires Run(ops) && m < |ops| && p in After(ops, m) && ops[m].at < p.createdAt + 600000
    requires !(ops[m].Take? && ops[m].id == p.id) && !Evicts(ops, m, p)
    ensures p in After(ops, m + 1)
  {
    hide Step, Run, LeavesRoom, RetainedBytes;
    StoreHistory(ops, m);
    IdentifiersDistinct(ops, m);
    var previews := After(ops, m);
    var x :| 0 <= x < |previews| && previews[x] == p;
    if ops[m].Insert? {
      FreshIsAbsent(ops, m);
      EvictedExactly(previews, ops[m].preview, ops[m].at, x);
    } else {
      TakeKeepsOthers(previews, ops[m].id, ops[m].at, x);
    }
  }

  lemma {:induction false} StoredAtFirst(ops: seq<Operation>, k: nat, p: Preview)
    requires k < |ops| && Inserts(ops[k], p) && RetainedBytes(p) <= 67108864
    ensures p in After(ops, k + 1)
  {
    hide Evict, DropExpired, RetainedBytes;
    assert After(ops, k + 1) == Step(After(ops, k), ops[k]);
  }

  lemma {:induction false} LastUndisturbed(ops: seq<Operation>, k: nat, n: nat, p: Preview)
    requires k + 1 < n <= |ops| && Undisturbed(ops, k, n, p)
    ensures Undisturbed(ops, k, n - 1, p)
    ensures !(ops[n - 1].Take? && ops[n - 1].id == p.id) && !Evicts(ops, n - 1, p)
  {
    hide Evicts;
  }

  lemma {:induction false} InOrder(ops: seq<Operation>, i: nat, j: nat)
    requires Run(ops) && i < j < |ops|
    ensures ops[i].at <= ops[j].at
  {
    assert Done(ops[i]) <= ops[j].at && ops[i].at <= Done(ops[i]);
  }

  lemma {:induction false} StaysStored(ops: seq<Operation>, k: nat, n: nat, p: Preview)
    requires Run(ops) && k < n <= |ops| && Inserts(ops[k], p) && RetainedBytes(p) <= 67108864
    requires Undisturbed(ops, k, n, p)
    requires n - 1 > k ==> ops[n - 1].at < p.createdAt + 600000
    ensures p in After(ops, n)
  {
    hide *;
    if n == k + 1 {
      StoredAtFirst(ops, k, p);
    } else {
      InOrder(ops, n - 2, n - 1);
      LastUndisturbed(ops, k, n, p);
      StaysStored(ops, k, n - 1, p);
      StepKeepsIt(ops, n - 1, p);
    }
  }

  /** A preview that was accepted, and neither taken nor evicted since, can be taken for ten minutes. */
  lemma {:induction false} KeptUntilExpiry(ops: seq<Operation>, k: nat, n: nat)
    requires Run(ops) && k < n < |ops| && ops[k].Insert? && RetainedBytes(ops[k].preview) <= 67108864
    requires Undisturbed(ops, k, n, ops[k].preview)
    requires ops[n] == Take(ops[k].preview.id, ops[n].at) && ops[n].at < ops[k].preview.createdAt + 600000
    ensures Taken(ops, n) == Some(ops[k].preview)
  {
    hide Step, Evicts, RetainedBytes, Chronological, DistinctIds, InsertedBy, Undisturbed, DropExpired;
    var p := ops[k].preview;
    InOrder(ops, n - 1, n);
    StaysStored(ops, k, n, p);
    StoreHistory(ops, n);
    IdentifiersDistinct(ops, n);
    var previews := After(ops, n);
    var x :| 0 <= x < |previews| && previews[x] == p;
    var d := DropExpiredIsExact(previews, ops[n].at);
    assert !Expired(previews[x], ops[n].at);
    assert previews[d..][x - d] == p;
    OnlyOneWith(previews, d, x);
  }

  lemma {:induction false} OnlyOneWith(previews: seq<Preview>, d: nat, x: nat)
    requires DistinctIds(previews) && d <= x < |previews|
    ensures IndexOf(previews[d..], previews[x].id) == x - d
  {
    hide IndexOf;
    var i := IndexOf(previews[d..], previews[x].id);
    assert previews[d..][x - d] == previews[x];
    assert i < |previews| - d ==> previews[d..][i] == previews[d + i];
  }

  /** All texts that a preview keeps: of each file the text before, and of each edit the old and the new one. */
  function RetainedText(files: seq<FilePreview>): Utf8.Text {
    if files == [] then [] else files[0].before + EditText(files[0].edits) + RetainedText(files[1..])
  }

  function EditText(edits: seq<WorkspaceEdits.RenameEdit>): Utf8.Text {
    if edits == [] then [] else edits[0].oldText + edits[0].newText + EditText(edits[1..])
  }

  lemma {:induction false} EditBytesAreText(edits: seq<WorkspaceEdits.RenameEdit>)
    ensures EditBytes(edits) == |Utf8.Encode(EditText(edits))|
  {
    if edits != [] {
      EditBytesAreText(edits[1..]);
      Utf8.EncodeConcat(edits[0].oldText, edits[0].newText);
      Utf8.EncodeConcat(edits[0].oldText + edits[0].newText, EditText(edits[1..]));
    }
  }

  /** The bytes that are counted against the limit are those of all texts of the preview. */
  lemma {:induction false} BytesAreText(files: seq<FilePreview>)
    ensures FileBytes(files) == |Utf8.Encode(RetainedText(files))|
  {
    if files != [] {
      BytesAreText(files[1..]);
      EditBytesAreText(files[0].edits);
      Utf8.EncodeConcat(files[0].before, EditText(files[0].edits));
      Utf8.EncodeConcat(files[0].before + EditText(files[0].edits), RetainedText(files[1..]));
    }
  }
}
