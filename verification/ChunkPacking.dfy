/**
 Packing small chunks into larger ones with overlap (`packMergeableChunks` of `internal/biz/rag/chunk.go`).

 The output is described by a plan: which run of input chunks each output chunk holds, and whether a
 copy of the previous output is carried in front of it. The plan is proved to follow from the budget
 alone, to leave no input chunk out and to keep every output within the budget.
 */
module ChunkPacking {
  import opened Text

  const DEFAULT_CHUNK_SIZE := 512
  const OVERLAP_TYPE_LIMIT := 0x4000_0000

  /** The block types that matter to packing; every other type is atomic. */
  datatype BlockType = Mixed | Paragraph | List | Image | Unset | Atomic(name: string)

  datatype Chunk = Chunk(id: string, content: string, blockType: BlockType, index: int)

  predicate HasTextType(c: Chunk) {
    c.blockType.Mixed? || c.blockType.Paragraph? || c.blockType.List? || c.blockType.Image?
  }

  predicate IsMergeable(c: Chunk, maxChars: int) {
    HasTextType(c) && |c.content| < maxChars
  }

  /** Length of the first `n` contents joined by blank lines. */
  function LengthUpTo(cs: seq<Chunk>, n: nat): nat
    requires n <= |cs|
  {
    if n == 0 then 0 else LengthUpTo(cs, n - 1) + (if n > 1 then 2 else 0) + |cs[n - 1].content|
  }

  function ContentLength(cs: seq<Chunk>): nat {
    LengthUpTo(cs, |cs|)
  }

  lemma {:induction false} SameLengthUpTo(a: seq<Chunk>, b: seq<Chunk>, n: nat)
    requires n <= |a| && n <= |b| && a[..n] == b[..n]
    ensures LengthUpTo(a, n) == LengthUpTo(b, n)
  {
    if n > 0 {
      assert a[n - 1] == a[..n][n - 1] && b[n - 1] == b[..n][n - 1];
      assert forall k :: 0 <= k < n - 1 ==> a[k] == a[..n][k] && b[k] == b[..n][k];
      assert a[..n - 1] == b[..n - 1];
      SameLengthUpTo(a, b, n - 1);
    }
  }

  lemma ContentLengthSnoc(cs: seq<Chunk>, c: Chunk)
    ensures ContentLength(cs + [c]) == ContentLength(cs) + (if cs != [] then 2 else 0) + |c.content|
  {
    assert (cs + [c])[..|cs|] == cs[..|cs|];
    SameLengthUpTo(cs + [c], cs, |cs|);
  }

  function JoinBlankLine(parts: seq<string>): string {
    if parts == [] then ""
    else if |parts| == 1 then parts[0]
    else JoinBlankLine(parts[..|parts| - 1]) + "\n\n" + parts[|parts| - 1]
  }

  /** The contents that `mergeChunks` joins: blank ones are left out. */
  function NonBlankContents(cs: seq<Chunk>): seq<string> {
    if cs == [] then [] else
    var last := cs[|cs| - 1].content;
    NonBlankContents(cs[..|cs| - 1]) + if IsBlank(last) then [] else [last]
  }

  predicate Homogeneous(cs: seq<Chunk>) {
    forall i :: 0 <= i < |cs| ==> cs[i].blockType == cs[0].blockType
  }

  /** `mergeChunks`, as far as identity, content and type go. */
  function Merge(cs: seq<Chunk>): Chunk
    requires cs != []
  {
    var blockType := if Homogeneous(cs) && !cs[0].blockType.Unset? then cs[0].blockType else Mixed;
    Chunk("", JoinBlankLine(NonBlankContents(cs)), blockType, cs[0].index)
  }

  lemma {:induction false} MergedLength(cs: seq<Chunk>)
    ensures |JoinBlankLine(NonBlankContents(cs))| <= ContentLength(cs)
    ensures |NonBlankContents(cs)| <= |cs|
  {
    if cs != [] {
      var front := cs[..|cs| - 1];
      MergedLength(front);
      ContentLengthSnoc(front, cs[|cs| - 1]);
      assert front + [cs[|cs| - 1]] == cs;
      var parts, last := NonBlankContents(front), cs[|cs| - 1].content;
      if IsBlank(last) {
        assert NonBlankContents(cs) == parts;
      } else {
        assert NonBlankContents(cs) == parts + [last] && (parts + [last])[..|parts|] == parts;
      }
    }
  }

  /** Without blank contents, the budget is spent to the last character. */
  lemma {:induction false} MergedLengthExactly(cs: seq<Chunk>)
    requires forall i :: 0 <= i < |cs| ==> !IsBlank(cs[i].content)
    ensures |JoinBlankLine(NonBlankContents(cs))| == ContentLength(cs) && |NonBlankContents(cs)| == |cs|
  {
    hide IsBlank, ContentLength, JoinBlankLine, NonBlankContents;
    NothingJoined();
    if cs != [] {
      var front, last := cs[..|cs| - 1], cs[|cs| - 1];
      assert cs == front + [last] && !IsBlank(cs[|cs| - 1].content);
      MergedLengthExactly(front);
      ContentLengthSnoc(front, last);
      MergedStep(front, last);
      JoinOneMore(NonBlankContents(front), last.content);
    }
  }

  lemma NothingJoined()
    ensures ContentLength([]) == 0 && NonBlankContents([]) == [] && JoinBlankLine([]) == ""
  {
  }

  // ----- The text of a merged chunk -----

  /** Where the content of `cs[k]` begins when each non-blank one before it is followed by a blank line. */
  function Offset(cs: seq<Chunk>, k: nat): nat
    requires k <= |cs|
  {
    if k == 0 then 0
    else Offset(cs, k - 1) + if IsBlank(cs[k - 1].content) then 0 else |cs[k - 1].content| + 2
  }

  /** `c` stands at `from` in `text`, and two line feeds stand behind it unless it is the end. */
  ghost predicate StandsAt(text: string, c: string, from: nat) {
    && from + |c| <= |text| && text[from..from + |c|] == c
    && (from + |c| < |text| ==> from + |c| + 2 <= |text| && text[from + |c|..from + |c| + 2] == ['\n', '\n'])
  }

  /** The non-blank contents stand in `text` in order, a blank line between neighbours, and nothing else does. */
  ghost predicate HoldsAll(text: string, cs: seq<Chunk>) {
    && |text| == (if Offset(cs, |cs|) == 0 then 0 else Offset(cs, |cs|) - 2)
    && forall k :: 0 <= k < |cs| && !IsBlank(cs[k].content) ==> StandsAt(text, cs[k].content, Offset(cs, k))
  }

  lemma {:induction false} OffsetSnoc(cs: seq<Chunk>, c: Chunk, k: nat)
    requires k <= |cs|
    ensures Offset(cs + [c], k) == Offset(cs, k)
  {
    if k > 0 { OffsetSnoc(cs, c, k - 1); }
  }

  lemma {:induction false} OffsetPositive(cs: seq<Chunk>, k: nat)
    requires k <= |cs|
    ensures Offset(cs, k) == 0 || Offset(cs, k) > 2
    ensures Offset(cs, k) == 0 <==> forall i :: 0 <= i < k ==> IsBlank(cs[i].content)
  {
    hide IsBlank;
    if k > 0 {
      OffsetPositive(cs, k - 1);
      EmptyIsBlank();
    }
  }

  lemma EmptyIsBlank()
    ensures IsBlank("")
  {
  }

  lemma {:induction false} OffsetGrows(cs: seq<Chunk>, k: nat)
    requires k < |cs| && !IsBlank(cs[k].content)
    ensures Offset(cs, k) + |cs[k].content| + 2 <= Offset(cs, |cs|)
    decreases |cs|
  {
    hide IsBlank;
    if k < |cs| - 1 {
      var front, last := cs[..|cs| - 1], cs[|cs| - 1];
      assert cs == front + [last];
      OffsetGrows(front, k);
      OffsetSnoc(front, last, k);
      OffsetSnoc(front, last, |front|);
    }
  }

  /** Nothing changes for what stands in the text when more is put behind it. */
  lemma StandsInLonger(text: string, last: string, c: string, from: nat)
    requires StandsAt(text, c, from)
    ensures StandsAt(text + ['\n', '\n'] + last, c, from)
  {
    var longer := text + ['\n', '\n'] + last;
    assert longer[from..from + |c|] == text[from..from + |c|];
    if from + |c| < |text| {
      assert longer[from + |c|..from + |c| + 2] == text[from + |c|..from + |c| + 2];
    } else {
      assert longer[from + |c|..from + |c| + 2] == ['\n', '\n'];
    }
  }

  lemma StandsLast(text: string, last: string)
    ensures StandsAt(text + ['\n', '\n'] + last, last, |text| + 2)
    ensures StandsAt(last, last, 0)
  {
  }

  lemma {:induction false} Longer(cs: seq<Chunk>, c: Chunk)
    ensures Offset(cs + [c], |cs| + 1) == Offset(cs, |cs|) + if IsBlank(c.content) then 0 else |c.content| + 2
    ensures forall k :: 0 <= k <= |cs| ==> Offset(cs + [c], k) == Offset(cs, k)
  {
    hide IsBlank;
    forall k | 0 <= k <= |cs| ensures Offset(cs + [c], k) == Offset(cs, k) { OffsetSnoc(cs, c, k); }
  }

  lemma {:induction false} HoldsBlank(text: string, cs: seq<Chunk>, c: Chunk)
    requires HoldsAll(text, cs) && IsBlank(c.content)
    ensures HoldsAll(text, cs + [c])
  {
    hide IsBlank, StandsAt, Offset;
    Longer(cs, c);
  }

  lemma {:induction false} HoldsFirst(text: string, cs: seq<Chunk>, c: Chunk)
    requires Offset(cs, |cs|) == 0 && !IsBlank(c.content)
    ensures HoldsAll(c.content, cs + [c])
  {
    hide IsBlank, StandsAt, Offset;
    Longer(cs, c);
    StandsLast(text, c.content);
    OffsetPositive(cs, |cs|);
    var all := cs + [c];
    forall k | 0 <= k < |all| && !IsBlank(all[k].content) ensures StandsAt(c.content, all[k].content, Offset(all, k)) {
      assert k == |cs| && all[k] == c;
    }
    EmptyIsBlank();
    assert |all| == |cs| + 1;
  }

  lemma {:induction false} HoldsOneMore(text: string, cs: seq<Chunk>, c: Chunk)
    requires HoldsAll(text, cs) && Offset(cs, |cs|) > 2 && !IsBlank(c.content)
    ensures HoldsAll(text + ['\n', '\n'] + c.content, cs + [c])
  {
    Longer(cs, c);
    StandsLast(text, c.content);
    hide IsBlank, StandsAt, Offset;
    var all, longer := cs + [c], text + ['\n', '\n'] + c.content;
    forall k | 0 <= k < |all| && !IsBlank(all[k].content) ensures StandsAt(longer, all[k].content, Offset(all, k)) {
      if k < |cs| { StandsInLonger(text, c.content, cs[k].content, Offset(cs, k)); }
    }
  }

  lemma NoneYet(cs: seq<Chunk>)
    requires HoldsAll(JoinBlankLine(NonBlankContents(cs)), cs)
    ensures NonBlankContents(cs) == [] <==> Offset(cs, |cs|) == 0
  {
    NonBlankAre(cs);
    OffsetPositive(cs, |cs|);
  }

  lemma {:induction false} NonBlankAre(cs: seq<Chunk>)
    ensures NonBlankContents(cs) == [] <==> forall i :: 0 <= i < |cs| ==> IsBlank(cs[i].content)
  {
    hide IsBlank;
    if cs != [] {
      var front, last := cs[..|cs| - 1], cs[|cs| - 1];
      assert cs == front + [last];
      NonBlankAre(front);
      MergedStep(front, last);
      hide NonBlankContents;
      assert forall i :: 0 <= i < |front| ==> cs[i] == front[i];
    }
  }

  lemma JoinOneMore(parts: seq<string>, last: string)
    ensures JoinBlankLine(parts + [last]) == if parts == [] then last else JoinBlankLine(parts) + ['\n', '\n'] + last
  {
    assert (parts + [last])[..|parts|] == parts;
    assert "\n\n" == ['\n', '\n'];
  }

  lemma {:induction false} MergedStep(front: seq<Chunk>, last: Chunk)
    ensures NonBlankContents(front + [last]) ==
              NonBlankContents(front) + if IsBlank(last.content) then [] else [last.content]
  {
    hide IsBlank;
    assert (front + [last])[..|front|] == front;
  }

  lemma NothingMerged()
    ensures HoldsAll(JoinBlankLine(NonBlankContents([])), [])
  {
  }

  /** What merging makes of the contents. */
  lemma {:induction false} MergedText(cs: seq<Chunk>)
    ensures HoldsAll(JoinBlankLine(NonBlankContents(cs)), cs)
  {
    hide IsBlank, HoldsAll, JoinBlankLine, NonBlankContents, Offset;
    if cs == [] {
      NothingMerged();
    } else {
      var front, last := cs[..|cs| - 1], cs[|cs| - 1];
      assert cs == front + [last];
      MergedText(front);
      NoneYet(front);
      MergedStep(front, last);
      OffsetPositive(front, |front|);
      var parts := NonBlankContents(front);
      JoinOneMore(parts, last.content);
      if IsBlank(last.content) {
        assert NonBlankContents(cs) == parts;
        HoldsBlank(JoinBlankLine(parts), front, last);
      } else if parts == [] {
        HoldsFirst(JoinBlankLine(parts), front, last);
      } else {
        HoldsOneMore(JoinBlankLine(parts), front, last);
      }
    }
  }

  // ----- Plans -----

  /** What an output chunk is made of. */
  datatype Piece =
    | Pass(at: nat)                             // an input chunk that cannot be merged
    | Run(from: nat, to: nat, carried: bool)    // inputs from..to, perhaps behind the previous output

  function Start(p: Piece): nat {
    match p case Pass(at) => at case Run(from, _, _) => from
  }

  function End(p: Piece): nat {
    match p case Pass(at) => at + 1 case Run(_, to, _) => to
  }

  predicate InRange(p: Piece, n: nat) {
    Start(p) < End(p) <= n
  }

  /** The chunks that a run joins, given the outputs before it. */
  function Parts(chunks: seq<Chunk>, p: Piece, before: seq<Chunk>): seq<Chunk>
    requires InRange(p, |chunks|)
  {
    (if p.Run? && p.carried && before != [] then [before[|before| - 1]] else []) + chunks[Start(p)..End(p)]
  }

  /** The output of a piece: a lone chunk unchanged, several chunks merged. */
  function Output(parts: seq<Chunk>): Chunk
    requires parts != []
  {
    if |parts| == 1 then parts[0] else Merge(parts)
  }

  /** The previous output is carried when overlap is on and both it and the next chunk leave room. */
  predicate CarryDue(before: seq<Chunk>, plan: seq<Piece>, next: Chunk, maxChars: int, overlap: int) {
    && plan != [] && plan[|plan| - 1].Run? && before != []
    && overlap > 0 && |next.content| + 2 < maxChars
    && IsMergeable(before[|before| - 1], OVERLAP_TYPE_LIMIT)
    && |before[|before| - 1].content| <= (if overlap < maxChars - |next.content| - 2 then overlap
         else maxChars - |next.content| - 2)
  }

  /** The last run before a new one is full: the next chunk does not fit any more. */
  predicate LastRunIsFull(chunks: seq<Chunk>, plan: seq<Piece>, before: seq<Chunk>, next: Chunk, maxChars: int) {
    plan != [] && before != [] && plan[|plan| - 1].Run? && InRange(plan[|plan| - 1], |chunks|) ==>
      ContentLength(Parts(chunks, plan[|plan| - 1], before[..|before| - 1])) + 2 + |next.content| > maxChars
  }

  /** One piece, given the pieces and outputs before it. */
  predicate PieceOk(chunks: seq<Chunk>, plan: seq<Piece>, before: seq<Chunk>, p: Piece, maxChars: int, overlap: int)
    requires InRange(p, |chunks|)
  {
    match p
    case Pass(at) => !IsMergeable(chunks[at], maxChars)
    case Run(from, to, carried) =>
      && (forall k :: from <= k < to ==> IsMergeable(chunks[k], maxChars))
      && (carried <==> CarryDue(before, plan, chunks[from], maxChars, overlap))
      && LastRunIsFull(chunks, plan, before, chunks[from], maxChars)
      && ContentLength(Parts(chunks, p, before)) <= maxChars
  }

  /** The plan covers the first `upto` inputs without gap, and `out` is what it makes of them. */
  ghost predicate IsPacking(chunks: seq<Chunk>, plan: seq<Piece>, out: seq<Chunk>, upto: nat, maxChars: int,
                            overlap: int) {
    && |plan| == |out|
    && if plan == [] then upto == 0 else
       var p, rest, before := plan[|plan| - 1], plan[..|plan| - 1], out[..|out| - 1];
       && InRange(p, |chunks|) && upto == End(p)
       && IsPacking(chunks, rest, before, Start(p), maxChars, overlap)
       && PieceOk(chunks, rest, before, p, maxChars, overlap)
       && out[|out| - 1] == Output(Parts(chunks, p, before))
  }

  // ----- What a plan guarantees -----

  /** The inputs that a plan places, in order, carried copies not counted. */
  ghost function Placed(chunks: seq<Chunk>, plan: seq<Piece>): seq<Chunk>
    requires forall k :: 0 <= k < |plan| ==> InRange(plan[k], |chunks|)
  {
    if plan == [] then [] else
    var p := plan[|plan| - 1];
    assert InRange(p, |chunks|);
    Placed(chunks, plan[..|plan| - 1]) + chunks[Start(p)..End(p)]
  }

  lemma {:induction false} PackingInRange(chunks: seq<Chunk>, plan: seq<Piece>, out: seq<Chunk>, upto: nat,
                                          maxChars: int, overlap: int)
    requires IsPacking(chunks, plan, out, upto, maxChars, overlap)
    ensures upto <= |chunks| && forall k :: 0 <= k < |plan| ==> InRange(plan[k], |chunks|)
  {
    if plan != [] {
      var last := |plan| - 1;
      PackingInRange(chunks, plan[..last], out[..last], Start(plan[last]), maxChars, overlap);
      forall k | 0 <= k < |plan| ensures InRange(plan[k], |chunks|) {
        if k < last { assert plan[..last][k] == plan[k]; }
      }
    }
  }

  /** Nothing is lost, doubled or reordered: the runs and passed chunks are the input, cut into segments. */
  lemma {:induction false} PackingIsLossless(chunks: seq<Chunk>, plan: seq<Piece>, out: seq<Chunk>, upto: nat,
                                             maxChars: int, overlap: int)
    requires IsPacking(chunks, plan, out, upto, maxChars, overlap)
    ensures upto <= |chunks| && (forall k :: 0 <= k < |plan| ==> InRange(plan[k], |chunks|)) &&
              Placed(chunks, plan) == chunks[..upto]
  {
    PackingInRange(chunks, plan, out, upto, maxChars, overlap);
    if plan != [] {
      var last := |plan| - 1;
      var from := Start(plan[last]);
      PackingIsLossless(chunks, plan[..last], out[..last], from, maxChars, overlap);
      SegmentAfter(chunks, from, upto);
    }
  }

  lemma SegmentAfter(chunks: seq<Chunk>, from: nat, to: nat)
    requires from <= to <= |chunks|
    ensures chunks[..from] + chunks[from..to] == chunks[..to]
  {
  }

  lemma PieceKeepsBudget(chunks: seq<Chunk>, plan: seq<Piece>, before: seq<Chunk>, p: Piece, maxChars: int,
                         overlap: int)
    requires InRange(p, |chunks|) && PieceOk(chunks, plan, before, p, maxChars, overlap)
    ensures p.Run? ==> |Output(Parts(chunks, p, before)).content| <= maxChars && (overlap <= 0 ==> !p.carried)
    ensures p.Pass? ==> Output(Parts(chunks, p, before)) == chunks[p.at] && !IsMergeable(chunks[p.at], maxChars)
  {
    var parts := Parts(chunks, p, before);
    MergedLength(parts);
    if |parts| == 1 {
      TailOfOne(parts[0]);
      assert parts == [parts[0]];
    }
  }

  /** Every output keeps the budget, unless it is an input chunk passed through unchanged. */
  lemma {:induction false} PackingKeepsBudget(chunks: seq<Chunk>, plan: seq<Piece>, out: seq<Chunk>, upto: nat,
                                              maxChars: int, overlap: int, k: nat)
    requires IsPacking(chunks, plan, out, upto, maxChars, overlap) && k < |plan|
    ensures plan[k].Run? ==> |out[k].content| <= maxChars && (overlap <= 0 ==> !plan[k].carried)
    ensures plan[k].Pass? ==> plan[k].at < |chunks| && out[k] == chunks[plan[k].at] && !IsMergeable(out[k], maxChars)
  {
    hide IsPacking, PieceOk, Output, Parts, IsMergeable;
    PieceAt(chunks, plan, out, upto, maxChars, overlap, k);
    PieceKeepsBudget(chunks, plan[..k], out[..k], plan[k], maxChars, overlap);
  }

  /** What a run holds: a copy of the output before it if it is carried, then its inputs. */
  function RunParts(chunks: seq<Chunk>, out: seq<Chunk>, p: Piece, k: nat): seq<Chunk>
    requires p.Run? && p.from < p.to <= |chunks| && k <= |out|
  {
    (if p.carried && k > 0 then [out[k - 1]] else []) + chunks[p.from..p.to]
  }

  /** A lone chunk is unchanged. Several stand in the text, and give their type if they share one. */
  ghost predicate IsRunOf(c: Chunk, parts: seq<Chunk>) {
    && (|parts| == 1 ==> c == parts[0])
    && (|parts| > 1 ==>
          && HoldsAll(c.content, parts) && c.id == "" && c.index == parts[0].index
          && c.blockType == if SameType(parts) && !parts[0].blockType.Unset? then parts[0].blockType else Mixed)
  }

  ghost predicate SameType(parts: seq<Chunk>) {
    forall i, j :: 0 <= i < j < |parts| ==> parts[i].blockType == parts[j].blockType
  }

  lemma {:induction false} OutputIsRun(parts: seq<Chunk>)
    requires parts != []
    ensures IsRunOf(Output(parts), parts)
  {
    MergedText(parts);
    hide HoldsAll, JoinBlankLine, NonBlankContents;
    assert Homogeneous(parts) <==> SameType(parts);
  }

  /** What every run of the output is: its inputs, all their text in order, behind the copy that is carried. */
  lemma {:induction false} RunHoldsItsText(chunks: seq<Chunk>, plan: seq<Piece>, out: seq<Chunk>, upto: nat,
                                           maxChars: int, overlap: int, k: nat)
    requires IsPacking(chunks, plan, out, upto, maxChars, overlap) && k < |plan| && plan[k].Run?
    ensures plan[k].from < plan[k].to <= |chunks| && |plan| == |out|
    ensures IsRunOf(out[k], RunParts(chunks, out, plan[k], k))
  {
    hide IsRunOf, PieceOk, Output;
    var last := |plan| - 1;
    if k < last {
      RunHoldsItsText(chunks, plan[..last], out[..last], Start(plan[last]), maxChars, overlap, k);
      assert out[..last][k] == out[k] && (k > 0 ==> out[..last][k - 1] == out[k - 1]);
    } else {
      var parts := RunParts(chunks, out, plan[k], k);
      assert parts == Parts(chunks, plan[k], out[..last]);
      OutputIsRun(parts);
    }
  }

  lemma {:induction false} RunHasTextType(parts: seq<Chunk>)
    requires parts != [] && HasTextType(parts[|parts| - 1])
    ensures HasTextType(Output(parts))
  {
    hide JoinBlankLine, NonBlankContents;
    if |parts| > 1 && Homogeneous(parts) { assert parts[|parts| - 1].blockType == parts[0].blockType; }
  }

  /** The last step of the plan before `k`, with everything that speaks of what came before it. */
  lemma {:induction false} PieceAt(chunks: seq<Chunk>, plan: seq<Piece>, out: seq<Chunk>, upto: nat, maxChars: int,
                                   overlap: int, k: nat)
    requires IsPacking(chunks, plan, out, upto, maxChars, overlap) && k < |plan|
    ensures |plan| == |out| && InRange(plan[k], |chunks|)
    ensures IsPacking(chunks, plan[..k], out[..k], Start(plan[k]), maxChars, overlap)
    ensures PieceOk(chunks, plan[..k], out[..k], plan[k], maxChars, overlap)
    ensures out[k] == Output(Parts(chunks, plan[k], out[..k]))
  {
    hide PieceOk, Output;
    var last := |plan| - 1;
    if k < last {
      PieceAt(chunks, plan[..last], out[..last], Start(plan[last]), maxChars, overlap, k);
      assert plan[..last][..k] == plan[..k] && out[..last][..k] == out[..k];
    }
  }

  lemma CarriedIff(before: seq<Chunk>, plan: seq<Piece>, next: Chunk, maxChars: int, overlap: int)
    requires |before| == |plan|
    requires plan != [] && plan[|plan| - 1].Run? ==> HasTextType(before[|before| - 1])
    ensures CarryDue(before, plan, next, maxChars, overlap) <==>
              && plan != [] && plan[|plan| - 1].Run? && overlap > 0 && |before[|before| - 1].content| <= overlap
              && |next.content| + 2 < maxChars && |before[|before| - 1].content| + 2 + |next.content| <= maxChars
              && |before[|before| - 1].content| < 0x4000_0000
  {
  }

  /** The same of the parts of a piece, read from the whole output. */
  lemma {:induction false} RunPartsAt(chunks: seq<Chunk>, plan: seq<Piece>, out: seq<Chunk>, upto: nat, maxChars: int,
                                      overlap: int, k: nat)
    requires IsPacking(chunks, plan, out, upto, maxChars, overlap) && k < |plan| && plan[k].Run?
    ensures |plan| == |out| && plan[k].from < plan[k].to <= |chunks|
    ensures Parts(chunks, plan[k], out[..k]) == RunParts(chunks, out, plan[k], k)
    ensures PieceOk(chunks, plan[..k], out[..k], plan[k], maxChars, overlap)
    ensures HasTextType(out[k])
  {
    hide IsPacking, Output, HasTextType, LastRunIsFull, CarryDue;
    PieceAt(chunks, plan, out, upto, maxChars, overlap, k);
    var parts := Parts(chunks, plan[k], out[..k]);
    assert parts[|parts| - 1] == chunks[plan[k].to - 1];
    MergeableIsText(chunks[plan[k].to - 1], maxChars);
    RunHasTextType(parts);
  }

  lemma MergeableIsText(c: Chunk, maxChars: int)
    ensures IsMergeable(c, maxChars) <==> HasTextType(c) && |c.content| < maxChars
  {
  }

  lemma {:induction false} RunIsFull(chunks: seq<Chunk>, plan: seq<Piece>, out: seq<Chunk>, upto: nat, maxChars: int,
                                     overlap: int, k: nat)
    requires IsPacking(chunks, plan, out, upto, maxChars, overlap) && 0 < k < |plan|
    requires plan[k].Run? && plan[k - 1].Run?
    ensures |plan| == |out| && plan[k - 1].from < plan[k - 1].to == plan[k].from < |chunks|
    ensures ContentLength(RunParts(chunks, out, plan[k - 1], k - 1)) + 2 + |chunks[plan[k].from].content| > maxChars
  {
    hide Output, HasTextType, IsMergeable, ContentLength, CarryDue;
    RunPartsAt(chunks, plan, out, upto, maxChars, overlap, k);
    RunPartsAt(chunks, plan, out, upto, maxChars, overlap, k - 1);
    PieceAt(chunks, plan, out, upto, maxChars, overlap, k);
    assert plan[..k][k - 1] == plan[k - 1] && out[..k][..k - 1] == out[..k - 1];
  }

  /**
   What makes a piece of the plan: only short chunks of a text type are joined; a run ends before the next such
   chunk only if that does not fit any more; and the output before a run goes in front of it once more exactly if
   it is a run that ended so, is no longer than the overlap, and leaves room for the next chunk.
   */
  lemma {:induction false} PiecesAre(chunks: seq<Chunk>, plan: seq<Piece>, out: seq<Chunk>, upto: nat, maxChars: int,
                                     overlap: int, k: nat)
    requires IsPacking(chunks, plan, out, upto, maxChars, overlap) && k < |plan|
    ensures |plan| == |out| && 0 <= Start(plan[k]) < End(plan[k]) <= |chunks|
    ensures plan[k].Pass? ==>
              !(chunks[plan[k].at].blockType in {Mixed, Paragraph, List, Image} &&
                |chunks[plan[k].at].content| < maxChars)
    ensures plan[k].Run? ==>
              forall i :: plan[k].from <= i < plan[k].to ==>
                chunks[i].blockType in {Mixed, Paragraph, List, Image} && |chunks[i].content| < maxChars
    ensures plan[k].Run? ==> ContentLength(RunParts(chunks, out, plan[k], k)) <= maxChars
    ensures plan[k].Run? && k > 0 && plan[k - 1].Run? ==>
              && 0 <= plan[k - 1].from < plan[k - 1].to == plan[k].from
              && ContentLength(RunParts(chunks, out, plan[k - 1], k - 1)) + 2 +
                   |chunks[plan[k].from].content| > maxChars
    ensures plan[k].Run? ==>
              var next := |chunks[plan[k].from].content|;
              plan[k].carried <==>
                && k > 0 && plan[k - 1].Run? && overlap > 0 && |out[k - 1].content| <= overlap
                && next + 2 < maxChars && |out[k - 1].content| + 2 + next <= maxChars
                && |out[k - 1].content| < 0x4000_0000
  {
    hide IsPacking, Output, LastRunIsFull, ContentLength, IsMergeable, HasTextType, CarryDue;
    PieceAt(chunks, plan, out, upto, maxChars, overlap, k);
    if plan[k].Pass? {
      MergeableIsText(chunks[plan[k].at], maxChars);
      TextTypes(chunks[plan[k].at]);
    } else {
      forall i | plan[k].from <= i < plan[k].to
        ensures chunks[i].blockType in {Mixed, Paragraph, List, Image} && |chunks[i].content| < maxChars
      {
        MergeableIsText(chunks[i], maxChars);
        TextTypes(chunks[i]);
      }
      RunPartsAt(chunks, plan, out, upto, maxChars, overlap, k);
      if k > 0 && plan[k - 1].Run? {
        RunIsFull(chunks, plan, out, upto, maxChars, overlap, k);
        RunPartsAt(chunks, plan, out, upto, maxChars, overlap, k - 1);
      }
      CarriedIff(out[..k], plan[..k], chunks[plan[k].from], maxChars, overlap);
    }
  }

  lemma TextTypes(c: Chunk)
    ensures HasTextType(c) <==> c.blockType in {Mixed, Paragraph, List, Image}
  {
  }

  // ----- The code -----

  /** The longest tail of `buffer` whose joined length is within the budget. */
  ghost predicate IsLongestTail(buffer: seq<Chunk>, budget: int, carry: seq<Chunk>) {
    && |carry| <= |buffer| && carry == buffer[|buffer| - |carry|..]
    && (carry != [] ==> ContentLength(carry) <= budget)
    && (budget <= 0 ==> carry == [])
    && (budget > 0 && |carry| < |buffer| ==> ContentLength(buffer[|buffer| - |carry| - 1..]) > budget)
  }

  method OverlapTail(buffer: seq<Chunk>, budget: int) returns (carry: seq<Chunk>)
    ensures IsLongestTail(buffer, budget, carry)
  {
    carry := [];
    if budget <= 0 || |buffer| == 0 {
      return;
    }
    var total := 0;
    var i := |buffer| - 1;
    while i >= 0
      invariant -1 <= i < |buffer| && carry == buffer[i + 1..]
      invariant total == ContentLength(carry) && total <= budget
    {
      var add := |buffer[i].content|;
      if |carry| > 0 {
        add := add + 2;
      }
      ContentLengthCons(buffer[i], carry);
      assert buffer[i..] == [buffer[i]] + carry;
      if total + add > budget {
        break;
      }
      carry := [buffer[i]] + carry;
      total := total + add;
      i := i - 1;
    }
  }

  /** Only one chunk is ever offered: it is carried when it fits. */
  lemma TailOfOffer(last: Chunk, budget: int, carry: seq<Chunk>)
    requires IsLongestTail([last], budget, carry)
    ensures carry == if budget > 0 && |last.content| <= budget then [last] else []
  {
    TailOfOne(last);
    assert [last][0..] == [last];
  }

  lemma {:induction false} LengthUpToCons(c: Chunk, cs: seq<Chunk>, n: nat)
    requires n <= |cs|
    ensures LengthUpTo([c] + cs, n + 1) == |c.content| + (if n > 0 then 2 else 0) + LengthUpTo(cs, n)
  {
    if n > 0 { LengthUpToCons(c, cs, n - 1); }
  }

  lemma ContentLengthCons(c: Chunk, cs: seq<Chunk>)
    ensures ContentLength([c] + cs) == |c.content| + (if cs != [] then 2 else 0) + ContentLength(cs)
  {
    LengthUpToCons(c, cs, |cs|);
  }

  function Decimal(n: nat): string {
    (if n < 10 then "" else Decimal(n / 10)) + ["0123456789"[n % 10]]
  }

  /** The last loop: positions become indices, and names that were generated are generated anew. */
  function Renumbered(c: Chunk, i: nat): Chunk {
    c.(index := i, id := if c.id == "" || "chunk-" <= c.id then "chunk-" + Decimal(i) else c.id)
  }

  /** The number that a string of digits reads as. */
  function Reads(s: string): int {
    if s == "" then 0 else 10 * Reads(s[..|s| - 1]) + (s[|s| - 1] as int - '0' as int)
  }

  lemma LastDigit(n: nat) returns (digit: char)
    ensures '0' <= digit <= '9' && digit as int - '0' as int == n % 10
    ensures Decimal(n) == (if n < 10 then "" else Decimal(n / 10)) + [digit]
  {
    digit := "0123456789"[n % 10];
  }

  lemma ReadsSnoc(s: string, digit: char)
    ensures Reads(s + [digit]) == 10 * Reads(s) + (digit as int - '0' as int)
  {
    assert (s + [digit])[..|s|] == s;
  }

  lemma {:induction false} DecimalReads(n: nat)
    ensures Reads(Decimal(n)) == n && Decimal(n) != "" && (Decimal(n)[0] == '0' <==> n == 0)
    ensures forall i :: 0 <= i < |Decimal(n)| ==> '0' <= Decimal(n)[i] <= '9'
  {
    var digit := LastDigit(n);
    hide Decimal;
    var front := if n < 10 then "" else Decimal(n / 10);
    ReadsSnoc(front, digit);
    if n < 10 {
      assert Reads("") == 0;
    } else {
      DecimalReads(n / 10);
    }
  }

  /**
   The name of an output: its own, unless that is missing or was generated; generated names are the position in
   decimal behind a fixed prefix, so they differ.
   */
  lemma {:induction false} GeneratedNames(c: Chunk, d: Chunk, i: nat, j: nat)
    ensures Renumbered(c, i).index == i
    ensures Renumbered(c, i).content == c.content && Renumbered(c, i).blockType == c.blockType
    ensures c.id != "" && !(|c.id| >= 6 && c.id[..6] == "chunk-") ==> Renumbered(c, i).id == c.id
    ensures c.id == "" || (|c.id| >= 6 && c.id[..6] == "chunk-") ==>
              |Renumbered(c, i).id| > 6 && Renumbered(c, i).id[..6] == "chunk-" && Reads(Renumbered(c, i).id[6..]) == i
    ensures c.id == "" && d.id == "" && i != j ==> Renumbered(c, i).id != Renumbered(d, j).id
  {
    hide Decimal;
    DecimalReads(i);
    DecimalReads(j);
    assert ("chunk-" + Decimal(i))[6..] == Decimal(i);
    assert ("chunk-" + Decimal(j))[6..] == Decimal(j);
    assert ("chunk-" + Decimal(i))[..6] == "chunk-";
  }

  /** The open buffer is the next piece of the plan, not closed yet. */
  ghost predicate BufferIsOpenRun(chunks: seq<Chunk>, plan: seq<Piece>, out: seq<Chunk>, buffer: seq<Chunk>, from: nat,
                                  carried: bool, upto: nat, maxChars: int, overlap: int) {
    && from < upto <= |chunks|
    && buffer == Parts(chunks, Run(from, upto, carried), out)
    && IsPacking(chunks, plan, out, from, maxChars, overlap)
    && PieceOk(chunks, plan, out, Run(from, upto, carried), maxChars, overlap)
  }

  lemma CloseRun(chunks: seq<Chunk>, plan: seq<Piece>, out: seq<Chunk>, p: Piece, upto: nat, maxChars: int,
                 overlap: int)
    requires InRange(p, |chunks|) && upto == End(p)
    requires IsPacking(chunks, plan, out, Start(p), maxChars, overlap)
    requires PieceOk(chunks, plan, out, p, maxChars, overlap)
    ensures IsPacking(chunks, plan + [p], out + [Output(Parts(chunks, p, out))], upto, maxChars, overlap)
  {
    assert (plan + [p])[..|plan|] == plan;
    assert (out + [Output(Parts(chunks, p, out))])[..|out|] == out;
  }

  lemma {:induction false} LongerPiece(chunks: seq<Chunk>, plan: seq<Piece>, out: seq<Chunk>, from: nat, to: nat,
                                       carried: bool, maxChars: int, overlap: int)
    requires from < to < |chunks| && PieceOk(chunks, plan, out, Run(from, to, carried), maxChars, overlap)
    requires IsMergeable(chunks[to], maxChars)
    requires ContentLength(Parts(chunks, Run(from, to, carried), out)) + 2 + |chunks[to].content| <= maxChars
    ensures Parts(chunks, Run(from, to + 1, carried), out) == Parts(chunks, Run(from, to, carried), out) + [chunks[to]]
    ensures PieceOk(chunks, plan, out, Run(from, to + 1, carried), maxChars, overlap)
  {
    hide ContentLength, CarryDue, LastRunIsFull, IsMergeable;
    assert chunks[from..to + 1] == chunks[from..to] + [chunks[to]];
    ContentLengthSnoc(Parts(chunks, Run(from, to, carried), out), chunks[to]);
    assert Parts(chunks, Run(from, to + 1, carried), out) == Parts(chunks, Run(from, to, carried), out) + [chunks[to]];
  }

  lemma NewPiece(chunks: seq<Chunk>, plan: seq<Piece>, out: seq<Chunk>, carry: seq<Chunk>, i: nat, maxChars: int,
                 overlap: int)
    requires i < |chunks| && IsMergeable(chunks[i], maxChars)
    requires LastRunIsFull(chunks, plan, out, chunks[i], maxChars)
    requires carry == if CarryDue(out, plan, chunks[i], maxChars, overlap) then [out[|out| - 1]] else []
    ensures Parts(chunks, Run(i, i + 1, carry != []), out) == carry + [chunks[i]]
    ensures PieceOk(chunks, plan, out, Run(i, i + 1, carry != []), maxChars, overlap)
  {
    assert chunks[i..i + 1] == [chunks[i]];
    assert Parts(chunks, Run(i, i + 1, carry != []), out) == carry + [chunks[i]];
    ContentLengthSnoc(carry, chunks[i]);
    if carry != [] { TailOfOne(carry[0]); }
  }

  /** A new run, with or without a carried copy. */
  lemma OpenRun(chunks: seq<Chunk>, plan: seq<Piece>, out: seq<Chunk>, carry: seq<Chunk>, i: nat, maxChars: int,
                overlap: int)
    requires IsPacking(chunks, plan, out, i, maxChars, overlap) && i < |chunks| && IsMergeable(chunks[i], maxChars)
    requires LastRunIsFull(chunks, plan, out, chunks[i], maxChars)
    requires carry == if CarryDue(out, plan, chunks[i], maxChars, overlap) then [out[|out| - 1]] else []
    ensures BufferIsOpenRun(chunks, plan, out, carry + [chunks[i]], i, carry != [], i + 1, maxChars, overlap)
  {
    NewPiece(chunks, plan, out, carry, i, maxChars, overlap);
  }

  /** The loop invariant: the plan so far, and the open buffer as its next run. */
  ghost predicate PackedUpTo(chunks: seq<Chunk>, plan: seq<Piece>, out: seq<Chunk>, buffer: seq<Chunk>, from: nat,
                             carried: bool, upto: nat, maxChars: int, overlap: int) {
    if buffer == [] then
      IsPacking(chunks, plan, out, upto, maxChars, overlap) && (plan != [] ==> plan[|plan| - 1].Pass?)
    else BufferIsOpenRun(chunks, plan, out, buffer, from, carried, upto, maxChars, overlap)
  }

  /** `flush` after the last run. */
  lemma FlushedRun(chunks: seq<Chunk>, plan: seq<Piece>, out: seq<Chunk>, buffer: seq<Chunk>, from: nat, carried: bool,
                   upto: nat, maxChars: int, overlap: int)
    requires PackedUpTo(chunks, plan, out, buffer, from, carried, upto, maxChars, overlap) && buffer != []
    ensures IsPacking(chunks, plan + [Run(from, upto, carried)], out + [Output(buffer)], upto, maxChars, overlap)
  {
    CloseRun(chunks, plan, out, Run(from, upto, carried), upto, maxChars, overlap);
  }

  lemma NothingPacked(chunks: seq<Chunk>, from: nat, carried: bool, maxChars: int, overlap: int)
    ensures PackedUpTo(chunks, [], [], [], from, carried, 0, maxChars, overlap)
  {
  }

  lemma NothingOpen(chunks: seq<Chunk>, plan: seq<Piece>, out: seq<Chunk>, from: nat, carried: bool, upto: nat,
                    maxChars: int, overlap: int)
    requires PackedUpTo(chunks, plan, out, [], from, carried, upto, maxChars, overlap)
    ensures IsPacking(chunks, plan, out, upto, maxChars, overlap)
  {
  }

  /** A chunk that cannot be merged. */
  lemma {:induction false} PassThrough(chunks: seq<Chunk>, plan: seq<Piece>, out: seq<Chunk>, i: nat, from: nat,
                                       carried: bool, maxChars: int, overlap: int)
    requires i < |chunks| && IsPacking(chunks, plan, out, i, maxChars, overlap) && !IsMergeable(chunks[i], maxChars)
    ensures PackedUpTo(chunks, plan + [Pass(i)], out + [chunks[i]], [], from, carried, i + 1, maxChars, overlap)
  {
    hide IsPacking, ContentLength, CarryDue, Merge;
    assert Parts(chunks, Pass(i), out) == [chunks[i]];
    CloseRun(chunks, plan, out, Pass(i), i + 1, maxChars, overlap);
  }

  /** The first run, or a run after a passed chunk. */
  lemma FreshRun(chunks: seq<Chunk>, plan: seq<Piece>, out: seq<Chunk>, i: nat, from: nat, carried: bool,
                 maxChars: int, overlap: int)
    requires PackedUpTo(chunks, plan, out, [], from, carried, i, maxChars, overlap)
    requires i < |chunks| && IsMergeable(chunks[i], maxChars)
    ensures PackedUpTo(chunks, plan, out, [chunks[i]], i, false, i + 1, maxChars, overlap)
  {
    OpenRun(chunks, plan, out, [], i, maxChars, overlap);
    assert [] + [chunks[i]] == [chunks[i]];
  }

  /** One more chunk in the open run. */
  lemma ExtendRun(chunks: seq<Chunk>, plan: seq<Piece>, out: seq<Chunk>, buffer: seq<Chunk>, from: nat, carried: bool,
                  i: nat, maxChars: int, overlap: int)
    requires PackedUpTo(chunks, plan, out, buffer, from, carried, i, maxChars, overlap) && buffer != []
    requires i < |chunks| && IsMergeable(chunks[i], maxChars)
    requires ContentLength(buffer) + 2 + |chunks[i].content| <= maxChars
    ensures PackedUpTo(chunks, plan, out, buffer + [chunks[i]], from, carried, i + 1, maxChars, overlap)
  {
    LongerPiece(chunks, plan, out, from, i, carried, maxChars, overlap);
  }

  /** A run that follows a full one. */
  lemma NextRun(chunks: seq<Chunk>, plan: seq<Piece>, out: seq<Chunk>, buffer: seq<Chunk>, carry: seq<Chunk>,
                from: nat, carried: bool, i: nat, maxChars: int, overlap: int)
    requires PackedUpTo(chunks, plan, out, buffer, from, carried, i, maxChars, overlap) && buffer != []
    requires i < |chunks| && IsMergeable(chunks[i], maxChars)
    requires ContentLength(buffer) + 2 + |chunks[i].content| > maxChars
    requires carry == Carry(Output(buffer), |chunks[i].content|, maxChars, overlap)
    ensures PackedUpTo(chunks, plan + [Run(from, i, carried)], out + [Output(buffer)], carry + [chunks[i]], i,
                       carry != [], i + 1, maxChars, overlap)
  {
    FlushedRun(chunks, plan, out, buffer, from, carried, i, maxChars, overlap);
    FullRun(chunks, plan, out, buffer, from, carried, i, chunks[i], maxChars, overlap);
    OpenRun(chunks, plan + [Run(from, i, carried)], out + [Output(buffer)], carry, i, maxChars, overlap);
  }

  /** The copy that goes in front of the next chunk. */
  function Carry(last: Chunk, addLen: nat, maxChars: int, overlap: int): seq<Chunk> {
    if overlap > 0 && addLen + 2 < maxChars && IsMergeable(last, OVERLAP_TYPE_LIMIT)
       && |last.content| <= (if overlap < maxChars - addLen - 2 then overlap else maxChars - addLen - 2)
    then [last] else []
  }

  lemma {:induction false} CarryIs(last: Chunk, addLen: nat, maxChars: int, overlap: int)
    ensures var budget := if overlap < maxChars - addLen - 2 then overlap else maxChars - addLen - 2;
            Carry(last, addLen, maxChars, overlap) ==
            if && overlap > 0 && addLen + 2 < maxChars && IsMergeable(last, OVERLAP_TYPE_LIMIT)
               && budget > 0 && |last.content| <= budget
            then [last] else []
  {
    hide IsMergeable;
  }

  method CarryOver(last: Chunk, addLen: nat, maxChars: int, overlap: int) returns (carry: seq<Chunk>)
    ensures carry == Carry(last, addLen, maxChars, overlap)
  {
    hide *;
    CarryIs(last, addLen, maxChars, overlap);
    carry := [];
    if overlap > 0 && addLen + 2 < maxChars && IsMergeable(last, OVERLAP_TYPE_LIMIT) {
      var budget := if overlap < maxChars - addLen - 2 then overlap else maxChars - addLen - 2;
      carry := OverlapTail([last], budget);
      TailOfOffer(last, budget, carry);
    }
  }

  /** The main loop of `packMergeableChunks`. */
  method Pack(chunks: seq<Chunk>, limit: int, overlapChars: int) returns (result: seq<Chunk>, ghost plan: seq<Piece>)
    ensures IsPacking(chunks, plan, result, |chunks|, limit, overlapChars)
  {
    hide *;
    plan, result := [], [];
    var buffer: seq<Chunk> := [];
    var bufferLen := ChunksContentLength(buffer);
    ghost var from, carried := 0, false;
    NothingPacked(chunks, from, carried, limit, overlapChars);
    for i := 0 to |chunks|
      invariant bufferLen == ContentLength(buffer)
      invariant PackedUpTo(chunks, plan, result, buffer, from, carried, i, limit, overlapChars)
    {
      var chunk := chunks[i];
      if !IsMergeable(chunk, limit) {
        if |buffer| > 0 {
          FlushedRun(chunks, plan, result, buffer, from, carried, i, limit, overlapChars);
          result := result + [Output(buffer)];
          plan := plan + [Run(from, i, carried)];
        } else {
          NothingOpen(chunks, plan, result, from, carried, i, limit, overlapChars);
        }
        PassThrough(chunks, plan, result, i, from, carried, limit, overlapChars);
        result := result + [chunk];
        plan := plan + [Pass(i)];
        buffer := [];
        bufferLen := ChunksContentLength(buffer);
        continue;
      }
      var addLen := |chunk.content|;
      var sepLen := if |buffer| > 0 then 2 else 0;
      if |buffer| > 0 && bufferLen + sepLen + addLen > limit {
        var carry := CarryOver(Output(buffer), addLen, limit, overlapChars);
        NextRun(chunks, plan, result, buffer, carry, from, carried, i, limit, overlapChars);
        result := result + [Output(buffer)];
        plan := plan + [Run(from, i, carried)];
        buffer := carry;
        bufferLen := ChunksContentLength(buffer);
        from, carried := i, carry != [];
      } else if |buffer| > 0 {
        ExtendRun(chunks, plan, result, buffer, from, carried, i, limit, overlapChars);
      } else {
        FreshRun(chunks, plan, result, i, from, carried, limit, overlapChars);
        from, carried := i, false;
        assert buffer + [chunk] == [chunk];
      }
      ContentLengthSnoc(buffer, chunk);
      if |buffer| > 0 {
        bufferLen := bufferLen + 2;
      }
      buffer := buffer + [chunk];
      bufferLen := bufferLen + addLen;
    }
    if |buffer| > 0 {
      FlushedRun(chunks, plan, result, buffer, from, carried, |chunks|, limit, overlapChars);
      result := result + [Output(buffer)];
      plan := plan + [Run(from, |chunks|, carried)];
    } else {
      NothingOpen(chunks, plan, result, from, carried, |chunks|, limit, overlapChars);
    }
  }

  method PackMergeableChunks(chunks: seq<Chunk>, maxChars: int, overlapChars: int)
      returns (result: seq<Chunk>, ghost plan: seq<Piece>, ghost packed: seq<Chunk>)
    ensures |chunks| <= 1 ==> result == chunks
    ensures |chunks| > 1 ==>
              IsPacking(chunks, plan, packed, |chunks|, if maxChars <= 0 then DEFAULT_CHUNK_SIZE else maxChars,
                        overlapChars)
    ensures |chunks| > 1 ==>
              |result| == |packed| && forall k :: 0 <= k < |result| ==> result[k] == Renumbered(packed[k], k)
  {
    plan, packed := [], [];
    if |chunks| <= 1 {
      return chunks, [], [];
    }
    result, plan := Pack(chunks, if maxChars <= 0 then DEFAULT_CHUNK_SIZE else maxChars, overlapChars);
    packed := result;
    for i := 0 to |result|
      invariant |result| == |packed|
      invariant forall k :: 0 <= k < i ==> result[k] == Renumbered(packed[k], k)
      invariant forall k :: i <= k < |result| ==> result[k] == packed[k]
    {
      result := result[i := Renumbered(result[i], i)];
    }
  }

  method ChunksContentLength(cs: seq<Chunk>) returns (total: nat)
    ensures total == ContentLength(cs)
  {
    total := 0;
    for i := 0 to |cs|
      invariant total == LengthUpTo(cs, i)
    {
      if i > 0 {
        total := total + 2;
      }
      total := total + |cs[i].content|;
    }
  }

  lemma TailOfOne(c: Chunk)
    ensures ContentLength([c]) == |c.content|
  {
    assert LengthUpTo([c], 0) == 0;
  }

  /** A run that is closed because the next chunk does not fit. */
  lemma FullRun(chunks: seq<Chunk>, plan: seq<Piece>, out: seq<Chunk>, buffer: seq<Chunk>, from: nat, carried: bool,
                i: nat, next: Chunk, maxChars: int, overlap: int)
    requires BufferIsOpenRun(chunks, plan, out, buffer, from, carried, i, maxChars, overlap)
    requires buffer != [] && ContentLength(buffer) + 2 + |next.content| > maxChars
    ensures LastRunIsFull(chunks, plan + [Run(from, i, carried)], out + [Output(buffer)], next, maxChars)
  {
    assert (out + [Output(buffer)])[..|out|] == out;
  }
}
