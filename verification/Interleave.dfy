/** `ChatMessage::user_with_images` and `text_content` of
    packages/sdk/src/session.rs: splitting a message at its image placeholders
    and printing it back. */
module Interleave {
  import opened Wrappers
  import opened Order
  import opened Text

  datatype InputImage = InputImage(id: string, base64: string, mediaType: string)

  /** Tool, thinking and reminder blocks print as nothing; `Other` stands for them. */
  datatype Block =
    | Text(text: string)
    | Image(mediaType: string, data: string, placeholder: Option<string>)
    | Other

  function ImageBlock(image: InputImage): Block {
    Image(image.mediaType, image.base64, Some(image.id))
  }

  function ImageBlocks(images: seq<InputImage>): (blocks: seq<Block>)
    ensures |blocks| == |images|
  {
    if images == [] then []
    else ImageBlocks(images[..|images| - 1]) + [ImageBlock(images[|images| - 1])]
  }

  /** `text_content`. */
  function TextContent(blocks: seq<Block>): string {
    if blocks == [] then ""
    else BlockText(blocks[0]) + TextContent(blocks[1..])
  }

  function BlockText(block: Block): string {
    match block
    case Text(t) => t
    case Image(_, _, Some(id)) => id
    case _ => ""
  }

  /** The images a block list carries, as inputs again. */
  function ImagesOf(blocks: seq<Block>): seq<InputImage> {
    if blocks == [] then []
    else if blocks[0].Image? && blocks[0].placeholder.Some? then
      [InputImage(blocks[0].placeholder.value, blocks[0].data, blocks[0].mediaType)] + ImagesOf(blocks[1..])
    else ImagesOf(blocks[1..])
  }

  /** An occurrence: where in the text, and of which image's id. */
  datatype Hit = Hit(pos: nat, index: nat)

  // ----- sorting by id -----

  function Insert(image: InputImage, sorted: seq<InputImage>): seq<InputImage> {
    if sorted == [] || !Precedes(image.id, sorted[|sorted| - 1].id) then sorted + [image]
    else Insert(image, sorted[..|sorted| - 1]) + [sorted[|sorted| - 1]]
  }

  /** `sort_by` on the id: a stable sort. */
  function SortById(images: seq<InputImage>): seq<InputImage> {
    if images == [] then []
    else Insert(images[|images| - 1], SortById(images[..|images| - 1]))
  }

  ghost predicate SortedById(images: seq<InputImage>) {
    forall i, j :: 0 <= i < j < |images| ==> !Less(images[j].id, images[i].id)
  }

  ghost function WithId(images: seq<InputImage>, id: string): seq<InputImage> {
    if images == [] then []
    else
      WithId(images[..|images| - 1], id) +
      (if images[|images| - 1].id == id then [images[|images| - 1]] else [])
  }

  lemma {:induction false} InsertKeeps(image: InputImage, sorted: seq<InputImage>)
    ensures |Insert(image, sorted)| == |sorted| + 1
    ensures multiset(Insert(image, sorted)) == multiset(sorted) + multiset{image}
  {
    if sorted != [] {
      assert sorted == sorted[..|sorted| - 1] + [sorted[|sorted| - 1]];
      InsertKeeps(image, sorted[..|sorted| - 1]);
    }
  }

  lemma WithIdSnoc(images: seq<InputImage>, last: InputImage, id: string)
    ensures WithId(images + [last], id) == WithId(images, id) + (if last.id == id then [last] else [])
  {
    assert (images + [last])[..|images|] == images;
  }

  lemma {:induction false} InsertIsStable(image: InputImage, sorted: seq<InputImage>, id: string)
    ensures WithId(Insert(image, sorted), id) == WithId(sorted, id) + (if image.id == id then [image] else [])
  {
    if sorted != [] && Precedes(image.id, sorted[|sorted| - 1].id) {
      var front, last := sorted[..|sorted| - 1], sorted[|sorted| - 1];
      InsertIsStable(image, front, id);
      WithIdSnoc(Insert(image, front), last, id);
      PrecedesIsLess(image.id, last.id);
      LessIrreflexive(last.id);
    } else {
      WithIdSnoc(sorted, image, id);
    }
  }

  lemma {:induction false} InsertSorts(image: InputImage, sorted: seq<InputImage>)
    requires SortedById(sorted)
    ensures SortedById(Insert(image, sorted))
  {
    if sorted != [] {
      var front, last := sorted[..|sorted| - 1], sorted[|sorted| - 1];
      PrecedesIsLess(image.id, last.id);
      if Precedes(image.id, last.id) {
        InsertSorts(image, front);
        var inner := Insert(image, front);
        InsertKeeps(image, front);
        LessAsymmetric(image.id, last.id);
        forall i | 0 <= i < |inner| ensures !Less(last.id, inner[i].id) {
          assert inner[i] in multiset(inner);
          assert inner[i] == image || inner[i] in front;
        }
      } else {
        forall i | 0 <= i < |sorted| ensures !Less(image.id, sorted[i].id) {
          if i < |sorted| - 1 {
            LastIsLargest(image.id, sorted[i].id, last.id);
          }
        }
      }
    }
  }

  lemma LastIsLargest(a: string, b: string, c: string)
    requires !Less(a, c) && !Less(c, b)
    ensures !Less(a, b)
  {
    if Less(a, b) && b != c {
      LessTotal(b, c);
      LessTransitive(a, b, c);
    }
  }

  /** The sort orders by id, keeps every image, and keeps the given order among
      images that share an id. */
  lemma {:induction false} SortByIdSorts(images: seq<InputImage>)
    ensures SortedById(SortById(images))
    ensures multiset(SortById(images)) == multiset(images)
    ensures forall id :: WithId(SortById(images), id) == WithId(images, id)
  {
    if images != [] {
      var front, last := images[..|images| - 1], images[|images| - 1];
      assert images == front + [last];
      SortByIdSorts(front);
      InsertSorts(last, SortById(front));
      InsertKeeps(last, SortById(front));
      forall id ensures WithId(SortById(images), id) == WithId(images, id) {
        InsertIsStable(last, SortById(front), id);
      }
    }
  }

  // ----- the splitter as a function -----

  function RemoveAt<T>(s: seq<T>, i: nat): seq<T>
    requires i < |s|
  {
    s[..i] + s[i + 1..]
  }

  /** The earliest occurrence of any of the ids; on a tie the first image wins. */
  ghost function Earliest(text: string, images: seq<InputImage>): (r: Option<Hit>)
    ensures r.Some? ==> r.value.index < |images| && r.value.pos + |images[r.value.index].id| <= |text|
  {
    if images == [] then None
    else Nearer(Earliest(text, images[..|images| - 1]), Find(text, images[|images| - 1].id), |images| - 1)
  }

  function Nearer(before: Option<Hit>, found: Option<nat>, index: nat): Option<Hit> {
    if found.None? || (before.Some? && before.value.pos <= found.value) then before
    else Some(Hit(found.value, index))
  }

  lemma {:induction false} EarliestIsFirst(text: string, images: seq<InputImage>)
    ensures var r := Earliest(text, images);
            && (r.Some? ==> OccursAt(text, images[r.value.index].id, r.value.pos))
            && (forall j, q: nat :: 0 <= j < |images| && OccursAt(text, images[j].id, q) ==>
                  r.Some? && r.value.pos <= q && (r.value.pos == q ==> r.value.index <= j))
  {
    if images != [] {
      var front := images[..|images| - 1];
      EarliestIsFirst(text, front);
      FindIsFirst(text, images[|images| - 1].id, 0);
      var r := Earliest(text, images);
      forall j, q: nat | 0 <= j < |images| && OccursAt(text, images[j].id, q)
        ensures r.Some? && r.value.pos <= q && (r.value.pos == q ==> r.value.index <= j)
      {
        if j < |front| {
          assert OccursAt(text, front[j].id, q);
        }
      }
    }
  }

  ghost function TextUnlessEmpty(text: string): seq<Block> {
    if text == "" then [] else [Text(text)]
  }

  /** What one round finds: the text before a placeholder, its image, and what is left. */
  datatype Round = Round(head: string, image: InputImage, after: string, others: seq<InputImage>)

  ghost function FirstRound(text: string, images: seq<InputImage>): (r: Option<Round>)
    ensures r.Some? ==> |r.value.others| < |images|
  {
    var first := Earliest(text, images);
    if first.None? then None
    else
      var (p, i) := (first.value.pos, first.value.index);
      Some(Round(text[..p], images[i], text[p + |images[i].id|..], RemoveAt(images, i)))
  }

  /** One round per placed image; what is not placed goes to the end.  The
      measure is the number of images not yet placed, so empty and repeated
      ids do no harm. */
  ghost function Split(text: string, images: seq<InputImage>): seq<Block>
    decreases |images|
  {
    match FirstRound(text, images)
    case None => TextUnlessEmpty(text) + ImageBlocks(images)
    case Some(r) => TextUnlessEmpty(r.head) + ([ImageBlock(r.image)] + Split(r.after, r.others))
  }

  /** The text left when no unplaced id occurs any more, and the images left then. */
  ghost function Rest(text: string, images: seq<InputImage>): (string, seq<InputImage>)
    decreases |images|
  {
    var first := Earliest(text, images);
    if first.None? then (text, images)
    else
      Rest(text[first.value.pos + |images[first.value.index].id|..], RemoveAt(images, first.value.index))
  }

  lemma SplitNone(text: string, images: seq<InputImage>)
    requires Earliest(text, images).None?
    ensures Split(text, images) == TextUnlessEmpty(text) + ImageBlocks(images)
    ensures Rest(text, images) == (text, images)
  {}

  lemma SplitRound(text: string, images: seq<InputImage>, r: Round)
    requires FirstRound(text, images) == Some(r)
    ensures Split(text, images) == TextUnlessEmpty(r.head) + ([ImageBlock(r.image)] + Split(r.after, r.others))
  {}

  lemma RoundIs(text: string, images: seq<InputImage>, p: nat, i: nat)
    requires Earliest(text, images) == Some(Hit(p, i))
    ensures FirstRound(text, images) == Some(Round(text[..p], images[i], text[p + |images[i].id|..], RemoveAt(images, i)))
  {}

  lemma SplitSome(text: string, images: seq<InputImage>, p: nat, i: nat)
    requires Earliest(text, images) == Some(Hit(p, i))
    ensures Split(text, images)
         == TextUnlessEmpty(text[..p])
            + ([ImageBlock(images[i])] + Split(text[p + |images[i].id|..], RemoveAt(images, i)))
  {
    RoundIs(text, images, p, i);
    SplitRound(text, images, Round(text[..p], images[i], text[p + |images[i].id|..], RemoveAt(images, i)));
  }

  lemma RestSome(text: string, images: seq<InputImage>, p: nat, i: nat)
    requires Earliest(text, images) == Some(Hit(p, i))
    ensures Rest(text, images) == Rest(text[p + |images[i].id|..], RemoveAt(images, i))
  {}

  ghost predicate HasPlaceholder(text: string, images: seq<InputImage>) {
    exists i :: 0 <= i < |images| && Occurs(text, images[i].id)
  }

  ghost function Interleaved(text: string, images: seq<InputImage>): seq<Block> {
    if images == [] then [Text(text)]
    else if !HasPlaceholder(text, images) then ImageBlocks(images) + [Text(text)]
    else Split(text, SortById(images))
  }

  // ----- the loops of the source -----

  function Unused(images: seq<InputImage>, used: seq<bool>, upto: nat): seq<InputImage>
    requires upto <= |images| == |used|
  {
    if upto == 0 then []
    else Unused(images, used, upto - 1) + (if used[upto - 1] then [] else [images[upto - 1]])
  }

  lemma {:induction false} UnusedGrows(images: seq<InputImage>, used: seq<bool>, i: nat, upto: nat)
    requires i <= upto <= |images| == |used|
    ensures Unused(images, used, i) <= Unused(images, used, upto)
    ensures i < upto && !used[i] ==>
              |Unused(images, used, i)| < |Unused(images, used, upto)|
              && Unused(images, used, upto)[|Unused(images, used, i)|] == images[i]
  {
    if i < upto {
      UnusedGrows(images, used, i, upto - 1);
    }
  }

  lemma {:induction false} UsingRemoves(images: seq<InputImage>, used: seq<bool>, i: nat, upto: nat)
    requires i < upto <= |images| == |used| && !used[i]
    ensures |Unused(images, used, i)| < |Unused(images, used, upto)|
    ensures Unused(images, used[i := true], upto)
         == RemoveAt(Unused(images, used, upto), |Unused(images, used, i)|)
  {
    var after, n := used[i := true], upto - 1;
    var k, s, t := |Unused(images, used, i)|, Unused(images, used, n), Unused(images, after, n);
    UnusedGrows(images, used, i, upto);
    UnusedSnoc(images, used, n);
    UnusedSnoc(images, after, n);
    if n == i {
      UnusedAgree(images, used, after, i);
      assert s == t;
      RemoveLast(s, images[i]);
    } else {
      UsingRemoves(images, used, i, n);
      RemoveBefore(s, k, if used[n] then [] else [images[n]]);
    }
  }

  lemma UnusedSnoc(images: seq<InputImage>, used: seq<bool>, n: nat)
    requires n < |images| == |used|
    ensures Unused(images, used, n + 1) == Unused(images, used, n) + if used[n] then [] else [images[n]]
  {}

  lemma RemoveLast<T>(s: seq<T>, x: T)
    ensures RemoveAt(s + [x], |s|) == s + []
    ensures s + [] == s
  {}

  lemma RemoveBefore<T>(s: seq<T>, i: nat, more: seq<T>)
    requires i < |s|
    ensures RemoveAt(s + more, i) == RemoveAt(s, i) + more
  {
    assert (s + more)[..i] == s[..i] && (s + more)[i + 1..] == s[i + 1..] + more;
  }

  lemma {:induction false} UnusedAgree(images: seq<InputImage>, used: seq<bool>, other: seq<bool>, upto: nat)
    requires upto <= |images| == |used| == |other|
    requires forall k :: 0 <= k < upto ==> used[k] == other[k]
    ensures Unused(images, used, upto) == Unused(images, other, upto)
  {
    if upto > 0 {
      UnusedAgree(images, used, other, upto - 1);
    }
  }

  lemma {:induction false} AllUnused(images: seq<InputImage>, used: seq<bool>, upto: nat)
    requires upto <= |images| == |used|
    requires forall k :: 0 <= k < |used| ==> !used[k]
    ensures Unused(images, used, upto) == images[..upto]
  {
    if upto > 0 {
      AllUnused(images, used, upto - 1);
      assert images[..upto] == images[..upto - 1] + [images[upto - 1]];
    }
  }

  /** The triple the source keeps: byte range of a placeholder and its image. */
  datatype Span = Span(start: nat, end: nat, index: nat)

  /** `next` names the same occurrence as `best` does on the images not yet used. */
  ghost predicate Agrees(next: Option<Span>, best: Option<Hit>, cursor: nat,
                         images: seq<InputImage>, used: seq<bool>)
    requires |images| == |used|
  {
    && (next.None? <==> best.None?)
    && (next.Some? ==> SameSpot(next.value, best.value, cursor, images, used))
  }

  ghost predicate SameSpot(span: Span, hit: Hit, cursor: nat, images: seq<InputImage>, used: seq<bool>)
    requires |images| == |used|
  {
    && span.start == cursor + hit.pos
    && span.index < |images| && !used[span.index]
    && span.end == span.start + |images[span.index].id|
    && hit.index == |Unused(images, used, span.index)|
  }

  /** The search of one round: the nearest unused placeholder from `cursor` on. */
  method NextPlaceholder(text: string, cursor: nat, images: seq<InputImage>, used: seq<bool>)
    returns (next: Option<Span>)
    requires cursor <= |text| && |images| == |used|
    ensures Agrees(next, Earliest(text[cursor..], Unused(images, used, |images|)), cursor, images, used)
  {
    next := None;
    var rest := text[cursor..];
    var idx := 0;
    assert Unused(images, used, 0) == [];
    while idx < |images|
      invariant idx <= |images|
      invariant Searched(rest, cursor, images, used, idx, next)
    {
      if !used[idx] {
        next := Nearest(rest, cursor, images, used, idx, next);
      } else {
        UnusedStep(images, used, idx);
      }
      idx := idx + 1;
    }
  }

  /** One turn of the search, for an image not yet used. */
  method Nearest(rest: string, cursor: nat, images: seq<InputImage>, used: seq<bool>, idx: nat, before: Option<Span>)
    returns (next: Option<Span>)
    requires idx < |images| == |used| && !used[idx]
    requires Searched(rest, cursor, images, used, idx, before)
    ensures Searched(rest, cursor, images, used, idx + 1, next)
  {
    var found := Find(rest, images[idx].id);
    SearchOne(rest, cursor, images, used, idx, before, found);
    next := before;
    if found.Some? {
      var position := cursor + found.value;
      if next.None? || position < next.value.start {
        next := Some(Span(position, position + |images[idx].id|, idx));
      }
    }
  }

  /** `next` is the nearest placeholder of the first `idx` images. */
  ghost predicate Searched(rest: string, cursor: nat, images: seq<InputImage>, used: seq<bool>, idx: nat, next: Option<Span>)
    requires idx <= |images| == |used|
  {
    Agrees(next, Earliest(rest, Unused(images, used, idx)), cursor, images, used)
  }

  lemma SearchOne(rest: string, cursor: nat, images: seq<InputImage>, used: seq<bool>, idx: nat, next: Option<Span>,
                  found: Option<nat>)
    requires idx < |images| == |used| && !used[idx] && found == Find(rest, images[idx].id)
    requires Searched(rest, cursor, images, used, idx, next)
    ensures found.Some? && (next.None? || cursor + found.value < next.value.start) ==>
      var position := cursor + found.value;
      Searched(rest, cursor, images, used, idx + 1, Some(Span(position, position + |images[idx].id|, idx)))
    ensures !(found.Some? && (next.None? || cursor + found.value < next.value.start)) ==>
      Searched(rest, cursor, images, used, idx + 1, next)
  {
    var unused := Unused(images, used, idx);
    UnusedStep(images, used, idx);
    EarliestSnoc(rest, unused, images[idx]);
    AgreesStill(next, Earliest(rest, unused), cursor, images, used, idx, found);
  }

  lemma AgreesStill(next: Option<Span>, best: Option<Hit>, cursor: nat, images: seq<InputImage>, used: seq<bool>,
                    idx: nat, found: Option<nat>)
    requires idx < |images| == |used| && !used[idx] && Agrees(next, best, cursor, images, used)
    ensures var closer := found.Some? && (next.None? || cursor + found.value < next.value.start);
            Agrees(if closer then Some(Span(cursor + found.value, cursor + found.value + |images[idx].id|, idx)) else next,
                   Nearer(best, found, |Unused(images, used, idx)|), cursor, images, used)
  {}

  lemma UnusedStep(images: seq<InputImage>, used: seq<bool>, idx: nat)
    requires idx < |images| == |used|
    ensures Unused(images, used, idx + 1)
         == if used[idx] then Unused(images, used, idx) else Unused(images, used, idx) + [images[idx]]
  {}

  lemma EarliestSnoc(text: string, images: seq<InputImage>, image: InputImage)
    ensures Earliest(text, images + [image]) == Nearer(Earliest(text, images), Find(text, image.id), |images|)
  {
    assert (images + [image])[..|images|] == images;
  }

  /** `user_with_images`: the content of the message. */
  method UserWithImages(text: string, images: seq<InputImage>) returns (content: seq<Block>)
    ensures content == Interleaved(text, images)
  {
    if images == [] {
      return [Text(text)];
    }
    forall i | 0 <= i < |images| ensures Find(text, images[i].id).Some? <==> Occurs(text, images[i].id) {
      FindIsFirst(text, images[i].id, 0);
    }
    if !(exists i :: 0 <= i < |images| && Find(text, images[i].id).Some?) {
      assert !HasPlaceholder(text, images);
      return ImageBlocks(images) + [Text(text)];
    }
    assert HasPlaceholder(text, images);
    content := Interleave(text, SortById(images));
    if content == [] {
      content := [Text(text)];
    }
    ImagesConserved(text, images);
    assert |multiset(images)| > 0;
  }

  /** What the scan still has to produce. */
  ghost function ToCome(text: string, cursor: nat, images: seq<InputImage>, used: seq<bool>): seq<Block>
    requires cursor <= |text| && |images| == |used|
  {
    Split(text[cursor..], Unused(images, used, |images|))
  }

  /** The scanning loop, on the sorted images. */
  method Interleave(text: string, sorted: seq<InputImage>) returns (content: seq<Block>)
    ensures content == Split(text, sorted)
  {
    content := [];
    var cursor: nat := 0;
    var used := seq(|sorted|, _ => false);
    var searching := true;
    ScanStarts(text, sorted, used);
    while searching && cursor <= |text|
      invariant cursor <= |text| && |used| == |sorted|
      invariant Split(text, sorted) == content + ToCome(text, cursor, sorted, used)
      invariant !searching ==> Earliest(text[cursor..], Unused(sorted, used, |sorted|)).None?
      decreases searching, |Unused(sorted, used, |sorted|)|
    {
      var next := NextPlaceholder(text, cursor, sorted, used);
      if next.Some? {
        var found := next.value;
        RoundStep(text, cursor, sorted, used, found, content);
        content := content + TextBlockUnlessEmpty(text[cursor..found.start]);
        content := content + [ImageBlock(sorted[found.index])];
        used := used[found.index := true];
        cursor := found.end;
      } else {
        searching := false;
      }
    }
    ScanEnds(text, cursor, sorted, used, content);
    content := content + TextBlockUnlessEmpty(text[cursor..]);
    content := AppendUnplaced(content, sorted, used);
  }

  /** The final loop: what was not placed goes to the end. */
  method AppendUnplaced(placed: seq<Block>, sorted: seq<InputImage>, used: seq<bool>) returns (content: seq<Block>)
    requires |used| == |sorted|
    ensures content == placed + ImageBlocks(Unused(sorted, used, |sorted|))
  {
    content := placed;
    var idx := 0;
    while idx < |sorted|
      invariant idx <= |sorted|
      invariant content == placed + ImageBlocks(Unused(sorted, used, idx))
    {
      AppendedOne(placed, sorted, used, idx);
      if !used[idx] {
        content := content + [ImageBlock(sorted[idx])];
      }
      idx := idx + 1;
    }
  }

  lemma AppendedOne(placed: seq<Block>, images: seq<InputImage>, used: seq<bool>, idx: nat)
    requires idx < |images| == |used|
    ensures placed + ImageBlocks(Unused(images, used, idx + 1))
         == placed + ImageBlocks(Unused(images, used, idx)) + if used[idx] then [] else [ImageBlock(images[idx])]
  {
    var unused := Unused(images, used, idx);
    UnusedStep(images, used, idx);
    ImageBlocksSnoc(unused, images[idx]);
    Regroup(placed, ImageBlocks(unused), [ImageBlock(images[idx])]);
    Regroup(placed, ImageBlocks(unused), []);
  }

  lemma Regroup<T>(a: seq<T>, b: seq<T>, c: seq<T>)
    ensures a + (b + c) == a + b + c && (c == [] ==> a + b + c == a + b)
  {}

  lemma ImageBlocksSnoc(images: seq<InputImage>, last: InputImage)
    ensures ImageBlocks(images + [last]) == ImageBlocks(images) + [ImageBlock(last)]
  {
    assert (images + [last])[..|images|] == images;
  }

  lemma ScanStarts(text: string, images: seq<InputImage>, used: seq<bool>)
    requires |images| == |used| && forall k :: 0 <= k < |used| ==> !used[k]
    ensures Split(text, images) == [] + ToCome(text, 0, images, used)
  {
    AllUnused(images, used, |images|);
    assert text[0..] == text && images[..|images|] == images;
  }

  /** The branch that skips an empty text. */
  function TextBlockUnlessEmpty(text: string): (blocks: seq<Block>)
    ensures blocks == TextUnlessEmpty(text)
  {
    if |text| > 0 then [Text(text)] else []
  }

  lemma RoundStep(text: string, cursor: nat, images: seq<InputImage>, used: seq<bool>, found: Span, content: seq<Block>)
    requires cursor <= |text| && |images| == |used|
    requires Agrees(Some(found), Earliest(text[cursor..], Unused(images, used, |images|)), cursor, images, used)
    ensures cursor <= found.start <= found.end <= |text|
    ensures |Unused(images, used[found.index := true], |images|)| < |Unused(images, used, |images|)|
    ensures content + ToCome(text, cursor, images, used)
         == content + TextUnlessEmpty(text[cursor..found.start]) + [ImageBlock(images[found.index])]
            + ToCome(text, found.end, images, used[found.index := true])
  {
    var t, i := TextUnlessEmpty(text[cursor..found.start]), [ImageBlock(images[found.index])];
    RoundBlocks(text, cursor, images, used, found);
    Associate(content, t, i, ToCome(text, found.end, images, used[found.index := true]));
  }

  /** One round takes one image, and the text before it, off what is to come. */
  lemma RoundBlocks(text: string, cursor: nat, images: seq<InputImage>, used: seq<bool>, found: Span)
    requires cursor <= |text| && |images| == |used|
    requires Agrees(Some(found), Earliest(text[cursor..], Unused(images, used, |images|)), cursor, images, used)
    ensures cursor <= found.start <= found.end <= |text|
    ensures |Unused(images, used[found.index := true], |images|)| < |Unused(images, used, |images|)|
    ensures ToCome(text, cursor, images, used)
         == TextUnlessEmpty(text[cursor..found.start])
            + ([ImageBlock(images[found.index])] + ToCome(text, found.end, images, used[found.index := true]))
  {
    var p, i := found.start - cursor, |Unused(images, used, found.index)|;
    UnusedGrows(images, used, found.index, |images|);
    UsingRemoves(images, used, found.index, |images|);
    Slices(text, cursor, found.start, found.end);
    RoundIs(text[cursor..], Unused(images, used, |images|), p, i);
    SplitRound(text[cursor..], Unused(images, used, |images|),
               Round(text[cursor..found.start], images[found.index], text[found.end..],
                     Unused(images, used[found.index := true], |images|)));
  }

  lemma Slices(text: string, cursor: nat, start: nat, end: nat)
    requires cursor <= start <= end <= |text|
    ensures text[cursor..][..start - cursor] == text[cursor..start]
    ensures text[cursor..][end - cursor..] == text[end..]
  {}

  lemma Associate<T>(a: seq<T>, b: seq<T>, c: seq<T>, d: seq<T>)
    ensures a + (b + (c + d)) == a + b + c + d
  {}

  lemma ScanEnds(text: string, cursor: nat, images: seq<InputImage>, used: seq<bool>, content: seq<Block>)
    requires cursor <= |text| && |images| == |used|
    requires Earliest(text[cursor..], Unused(images, used, |images|)).None?
    ensures content + ToCome(text, cursor, images, used)
         == content + TextUnlessEmpty(text[cursor..]) + ImageBlocks(Unused(images, used, |images|))
  {
    SplitNone(text[cursor..], Unused(images, used, |images|));
    Regroup(content, TextUnlessEmpty(text[cursor..]), ImageBlocks(Unused(images, used, |images|)));
  }

  // ----- conservation -----

  ghost function Ids(images: seq<InputImage>): string {
    if images == [] then "" else Ids(images[..|images| - 1]) + images[|images| - 1].id
  }

  lemma ImagesCons(image: InputImage, tail: seq<Block>)
    ensures ImagesOf([ImageBlock(image)] + tail) == [image] + ImagesOf(tail)
  {
    var blocks := [ImageBlock(image)] + tail;
    assert blocks[0] == ImageBlock(image) && blocks[1..] == tail;
  }

  lemma TextCons(block: Block, tail: seq<Block>)
    ensures TextContent([block] + tail) == BlockText(block) + TextContent(tail)
  {
    var blocks := [block] + tail;
    assert blocks[0] == block && blocks[1..] == tail;
  }

  lemma ImagesAfterText(text: string, tail: seq<Block>)
    ensures ImagesOf(TextUnlessEmpty(text) + tail) == ImagesOf(tail)
  {
    var blocks := TextUnlessEmpty(text) + tail;
    if text == "" {
      assert blocks == tail;
    } else {
      assert blocks[0] == Text(text) && blocks[1..] == tail;
    }
  }

  lemma TextAfterText(text: string, tail: seq<Block>)
    ensures TextContent(TextUnlessEmpty(text) + tail) == text + TextContent(tail)
  {
    if text == "" {
      assert TextUnlessEmpty(text) + tail == tail;
    } else {
      TextCons(Text(text), tail);
    }
  }

  lemma {:induction false} ImagesThen(images: seq<InputImage>, tail: seq<Block>)
    ensures ImagesOf(ImageBlocks(images) + tail) == images + ImagesOf(tail)
  {
    if images == [] {
      assert ImageBlocks(images) + tail == tail;
    } else {
      var front, last := images[..|images| - 1], images[|images| - 1];
      var longer := [ImageBlock(last)] + tail;
      ImagesThen(front, longer);
      ImagesCons(last, tail);
      assert ImageBlocks(images) + tail == ImageBlocks(front) + longer;
      assert images + ImagesOf(tail) == front + ([last] + ImagesOf(tail));
    }
  }

  lemma {:induction false} TextThen(images: seq<InputImage>, tail: seq<Block>)
    ensures TextContent(ImageBlocks(images) + tail) == Ids(images) + TextContent(tail)
  {
    if images == [] {
      assert ImageBlocks(images) + tail == tail;
    } else {
      var front, last := images[..|images| - 1], images[|images| - 1];
      var longer := [ImageBlock(last)] + tail;
      TextThen(front, longer);
      TextCons(ImageBlock(last), tail);
      assert ImageBlocks(images) + tail == ImageBlocks(front) + longer;
      assert Ids(images) + TextContent(tail) == Ids(front) + (last.id + TextContent(tail));
    }
  }

  lemma ImagesOnly(images: seq<InputImage>)
    ensures ImagesOf(ImageBlocks(images)) == images
  {
    ImagesThen(images, []);
    assert ImageBlocks(images) + [] == ImageBlocks(images);
    assert images + [] == images;
  }

  /** One round's worth of blocks. */
  lemma PieceImages(text: string, image: InputImage, tail: seq<Block>)
    ensures ImagesOf(TextUnlessEmpty(text) + ([ImageBlock(image)] + tail)) == [image] + ImagesOf(tail)
  {
    ImagesAfterText(text, [ImageBlock(image)] + tail);
    ImagesCons(image, tail);
  }

  lemma PieceText(text: string, image: InputImage, tail: seq<Block>)
    ensures TextContent(TextUnlessEmpty(text) + ([ImageBlock(image)] + tail)) == text + (image.id + TextContent(tail))
  {
    TextAfterText(text, [ImageBlock(image)] + tail);
    TextCons(ImageBlock(image), tail);
  }

  lemma RemoveAtCounts<T>(s: seq<T>, i: nat)
    requires i < |s|
    ensures multiset(s) == multiset(RemoveAt(s, i)) + multiset{s[i]}
  {
    assert s == s[..i] + [s[i]] + s[i + 1..];
  }

  lemma {:induction false} SplitConserves(text: string, images: seq<InputImage>)
    ensures multiset(ImagesOf(Split(text, images))) == multiset(images)
    decreases |images|
  {
    var first := Earliest(text, images);
    if first.None? {
      NoneConserves(text, images);
    } else {
      var i := first.value.index;
      SplitConserves(text[first.value.pos + |images[i].id|..], RemoveAt(images, i));
      SomeConserves(text, images, first.value.pos, i);
    }
  }

  lemma NoneConserves(text: string, images: seq<InputImage>)
    requires Earliest(text, images).None?
    ensures multiset(ImagesOf(Split(text, images))) == multiset(images)
  {
    SplitNone(text, images);
    ImagesAfterText(text, ImageBlocks(images));
    ImagesOnly(images);
  }

  lemma SomeConserves(text: string, images: seq<InputImage>, p: nat, i: nat)
    requires Earliest(text, images) == Some(Hit(p, i))
    requires multiset(ImagesOf(Split(text[p + |images[i].id|..], RemoveAt(images, i)))) == multiset(RemoveAt(images, i))
    ensures multiset(ImagesOf(Split(text, images))) == multiset(images)
  {
    SplitSome(text, images, p, i);
    PieceConserves(text, images, p, i, Split(text[p + |images[i].id|..], RemoveAt(images, i)));
  }

  lemma PieceConserves(text: string, images: seq<InputImage>, p: nat, i: nat, tail: seq<Block>)
    requires p <= |text| && i < |images|
    requires multiset(ImagesOf(tail)) == multiset(RemoveAt(images, i))
    ensures multiset(ImagesOf(TextUnlessEmpty(text[..p]) + ([ImageBlock(images[i])] + tail))) == multiset(images)
  {
    PieceImages(text[..p], images[i], tail);
    RemoveAtCounts(images, i);
    assert multiset([images[i]] + ImagesOf(tail)) == multiset{images[i]} + multiset(ImagesOf(tail));
  }

  /** Every input image occurs exactly as often in the message as it was given. */
  lemma ImagesConserved(text: string, images: seq<InputImage>)
    ensures multiset(ImagesOf(Interleaved(text, images))) == multiset(images)
  {
    SortByIdSorts(images);
    SplitConserves(text, SortById(images));
    HeadTailConserves(text, images);
  }

  lemma HeadTailConserves(text: string, images: seq<InputImage>)
    ensures ImagesOf(ImageBlocks(images) + [Text(text)]) == images && ImagesOf([Text(text)]) == []
  {
    ImagesThen(images, [Text(text)]);
    assert [Text(text)][1..] == [];
    assert images + [] == images;
  }

  lemma HeadOfBoth(a: seq<Block>, b: seq<Block>)
    requires a != []
    ensures a == [a[0]] + a[1..] && a + b == [a[0]] + (a[1..] + b)
  {}

  /** Blocks print one after the other. */
  lemma {:induction false} PrintedInOrder(a: seq<Block>, b: seq<Block>)
    ensures TextContent(a + b) == TextContent(a) + TextContent(b)
  {
    if a == [] {
      assert a + b == b;
    } else {
      HeadOfBoth(a, b);
      PrintedInOrder(a[1..], b);
      HeadPrints(a[0], a[1..], b);
    }
  }

  lemma HeadPrints(block: Block, rest: seq<Block>, b: seq<Block>)
    requires TextContent(rest + b) == TextContent(rest) + TextContent(b)
    ensures TextContent([block] + (rest + b)) == TextContent([block] + rest) + TextContent(b)
  {
    TextCons(block, rest + b);
    TextCons(block, rest);
    Grouped(BlockText(block), TextContent(rest), TextContent(b));
  }

  lemma Grouped(x: string, y: string, z: string)
    ensures x + (y + z) == (x + y) + z
  {}

  /** A text prints as it stands, an image as the id it carries, an image without one and
      any other block as nothing. */
  lemma OnePrints(mediaType: string, data: string, text: string)
    ensures TextContent([Text(text)]) == text && TextContent([Image(mediaType, data, Some(text))]) == text
    ensures TextContent([Image(mediaType, data, None)]) == "" && TextContent([Other]) == ""
  {
    SinglePrints(Text(text));
    SinglePrints(Image(mediaType, data, Some(text)));
    SinglePrints(Image(mediaType, data, None));
    SinglePrints(Other);
  }

  lemma SinglePrints(block: Block)
    ensures TextContent([block]) == BlockText(block)
  {
    TextCons(block, []);
    assert [block] + [] == [block];
  }

  lemma {:induction false} SplitPrints(text: string, images: seq<InputImage>)
    ensures TextContent(Split(text, images)) == text + Ids(Rest(text, images).1)
    decreases |images|
  {
    var first := Earliest(text, images);
    if first.None? {
      NonePrints(text, images);
    } else {
      var p, i := first.value.pos, first.value.index;
      var after, others := text[p + |images[i].id|..], RemoveAt(images, i);
      SplitPrints(after, others);
      SomePrints(text, images, p, i, after, others);
    }
  }

  lemma NonePrints(text: string, images: seq<InputImage>)
    requires Earliest(text, images).None?
    ensures TextContent(Split(text, images)) == text + Ids(Rest(text, images).1)
  {
    SplitNone(text, images);
    TextAfterText(text, ImageBlocks(images));
    TextThen(images, []);
    assert ImageBlocks(images) + [] == ImageBlocks(images);
  }

  lemma SomePrints(text: string, images: seq<InputImage>, p: nat, i: nat, after: string, others: seq<InputImage>)
    requires Earliest(text, images) == Some(Hit(p, i))
    requires after == text[p + |images[i].id|..] && others == RemoveAt(images, i)
    requires TextContent(Split(after, others)) == after + Ids(Rest(after, others).1)
    ensures TextContent(Split(text, images)) == text + Ids(Rest(text, images).1)
  {
    RestSome(text, images, p, i);
    RoundPrints(text, images, p, i, after, others, Ids(Rest(after, others).1));
  }

  lemma RoundPrints(text: string, images: seq<InputImage>, p: nat, i: nat, after: string, others: seq<InputImage>,
                    more: string)
    requires Earliest(text, images) == Some(Hit(p, i))
    requires after == text[p + |images[i].id|..] && others == RemoveAt(images, i)
    requires TextContent(Split(after, others)) == after + more
    ensures TextContent(Split(text, images)) == text + more
  {
    RoundIs(text, images, p, i);
    SplitRound(text, images, Round(text[..p], images[i], after, others));
    EarliestOccurs(text, images, p, i);
    PiecePrints(text, p, images[i], Split(after, others), more);
  }

  lemma PiecePrints(text: string, p: nat, image: InputImage, tail: seq<Block>, more: string)
    requires OccursAt(text, image.id, p) && TextContent(tail) == text[p + |image.id|..] + more
    ensures TextContent(TextUnlessEmpty(text[..p]) + ([ImageBlock(image)] + tail)) == text + more
  {
    var blocks := TextUnlessEmpty(text[..p]) + ([ImageBlock(image)] + tail);
    PieceText(text[..p], image, tail);
    Reassemble(text, p, image.id, more, TextContent(tail), TextContent(blocks));
  }

  lemma EarliestOccurs(text: string, images: seq<InputImage>, p: nat, i: nat)
    requires Earliest(text, images) == Some(Hit(p, i))
    ensures OccursAt(text, images[i].id, p)
  {
    EarliestIsFirst(text, images);
  }

  lemma Reassemble(text: string, p: nat, id: string, more: string, tail: string, whole: string)
    requires OccursAt(text, id, p) && tail == text[p + |id|..] + more && whole == text[..p] + (id + tail)
    ensures whole == text + more
  {
    assert text == text[..p] + id + text[p + |id|..];
  }

  /** The printed message is the text with the ids of the unplaced images after
      it; when no placeholder occurs at all, all ids come first. */
  lemma Prints(text: string, images: seq<InputImage>)
    ensures TextContent(Interleaved(text, images))
         == if HasPlaceholder(text, images) then text + Ids(Rest(text, SortById(images)).1)
            else Ids(images) + text
  {
    SplitPrints(text, SortById(images));
    TextThen(images, [Text(text)]);
    TextAlone(text);
  }

  lemma TextAlone(text: string)
    ensures TextContent([Text(text)]) == text && ImagesOf([Text(text)]) == []
  {
    assert [Text(text)][1..] == [];
    assert text + "" == text;
  }

  /** `left` is a tail of the text in which no id of the images `unplaced` occurs. */
  ghost predicate NothingLeft(text: string, images: seq<InputImage>, left: string, unplaced: seq<InputImage>) {
    && |left| <= |text| && text[|text| - |left|..] == left
    && forall u :: u in unplaced ==> u in images && !Occurs(left, u.id)
  }

  /** When the search ends, no unplaced id occurs in what is left of the text,
      and what is left is a tail of the text. */
  lemma {:induction false} NothingLeftToPlace(text: string, images: seq<InputImage>)
    ensures NothingLeft(text, images, Rest(text, images).0, Rest(text, images).1)
    decreases |images|
  {
    var first := Earliest(text, images);
    if first.None? {
      SplitNone(text, images);
      NoneLeft(text, images);
    } else {
      var i := first.value.index;
      var cut := first.value.pos + |images[i].id|;
      RestSome(text, images, first.value.pos, i);
      NothingLeftToPlace(text[cut..], RemoveAt(images, i));
      NothingLeftBefore(text, images, cut, i, Rest(text, images).0, Rest(text, images).1);
    }
  }

  lemma NoneLeft(text: string, images: seq<InputImage>)
    requires Earliest(text, images).None?
    ensures NothingLeft(text, images, text, images)
  {
    EarliestIsFirst(text, images);
  }

  lemma NothingLeftBefore(text: string, images: seq<InputImage>, cut: nat, i: nat, left: string, unplaced: seq<InputImage>)
    requires cut <= |text| && i < |images| && NothingLeft(text[cut..], RemoveAt(images, i), left, unplaced)
    ensures NothingLeft(text, images, left, unplaced)
  {}

  // ----- round trip -----

  /** The shape of `[Image #N]`: one bracket at each end and none between. */
  ghost predicate Bracketed(id: string) {
    && |id| >= 2 && id[0] == '[' && id[|id| - 1] == ']'
    && forall k :: 0 < k < |id| - 1 ==> id[k] != '[' && id[k] != ']'
  }

  ghost predicate GoodIds(images: seq<InputImage>) {
    && (forall i :: 0 <= i < |images| ==> Bracketed(images[i].id))
    && (forall i, j :: 0 <= i < j < |images| ==> images[i].id != images[j].id)
  }

  lemma OccurrenceReads(text: string, id: string, p: nat, k: nat)
    requires OccursAt(text, id, p) && k < |id|
    ensures p + k < |text| && text[p + k] == id[k]
  {
    assert text[p..p + |id|][k] == text[p + k];
  }

  lemma BracketedMatchIsUnique(text: string, a: string, b: string, p: nat)
    requires Bracketed(a) && Bracketed(b) && OccursAt(text, a, p) && OccursAt(text, b, p)
    ensures a == b
  {
    var k := (if |a| < |b| then |a| else |b|) - 1;
    OccurrenceReads(text, a, p, k);
    OccurrenceReads(text, b, p, k);
    assert a[k] == b[k] == ']';
    assert |a| == |b|;
  }

  /** The block lists the splitter makes: texts are not empty, never adjacent,
      and contain no placeholder of a later image. */
  ghost predicate Canonical(blocks: seq<Block>) {
    blocks != [] ==>
      && Canonical(blocks[1..])
      && match blocks[0]
         case Text(t) =>
           && t != ""
           && (|blocks| > 1 ==> blocks[1].Image?)
           && (forall image :: image in ImagesOf(blocks[1..]) ==> !Occurs(t, image.id))
         case Image(_, _, placeholder) => placeholder.Some?
         case Other => false
  }

  lemma {:induction false} ImageBlocksCanonical(images: seq<InputImage>, tail: seq<Block>)
    requires Canonical(tail)
    ensures Canonical(ImageBlocks(images) + tail)
    ensures images != [] ==> (ImageBlocks(images) + tail)[0].Image?
  {
    if images == [] {
      assert ImageBlocks(images) + tail == tail;
    } else {
      var front, last := images[..|images| - 1], images[|images| - 1];
      assert ([ImageBlock(last)] + tail)[1..] == tail;
      ImageBlocksCanonical(front, [ImageBlock(last)] + tail);
      assert ImageBlocks(images) + tail == ImageBlocks(front) + ([ImageBlock(last)] + tail);
    }
  }

  lemma TextThenImages(text: string, tail: seq<Block>)
    requires Canonical(tail) && (tail != [] ==> tail[0].Image?)
    requires forall image :: image in ImagesOf(tail) ==> text == "" || !Occurs(text, image.id)
    ensures Canonical(TextUnlessEmpty(text) + tail)
  {
    var blocks := TextUnlessEmpty(text) + tail;
    if text == "" {
      assert blocks == tail;
    } else {
      assert blocks[1..] == tail;
    }
  }

  lemma {:induction false} SplitCanonical(text: string, images: seq<InputImage>)
    ensures Canonical(Split(text, images))
    decreases |images|
  {
    var first := Earliest(text, images);
    if first.None? {
      SplitNone(text, images);
      TailCanonical(text, images);
    } else {
      var p, i := first.value.pos, first.value.index;
      var after := text[p + |images[i].id|..];
      SplitCanonical(after, RemoveAt(images, i));
      SplitConserves(after, RemoveAt(images, i));
      SomeCanonical(text, images, p, i);
    }
  }

  lemma SomeCanonical(text: string, images: seq<InputImage>, p: nat, i: nat)
    requires Earliest(text, images) == Some(Hit(p, i))
    requires var rest := Split(text[p + |images[i].id|..], RemoveAt(images, i));
             Canonical(rest) && multiset(ImagesOf(rest)) == multiset(RemoveAt(images, i))
    ensures Canonical(Split(text, images))
  {
    SplitSome(text, images, p, i);
    PieceCanonical(text, images, p, i, Split(text[p + |images[i].id|..], RemoveAt(images, i)));
  }

  lemma TailCanonical(text: string, images: seq<InputImage>)
    requires Earliest(text, images).None?
    ensures Canonical(TextUnlessEmpty(text) + ImageBlocks(images))
  {
    EarliestIsFirst(text, images);
    ImageBlocksCanonical(images, []);
    ImagesOnly(images);
    assert ImageBlocks(images) + [] == ImageBlocks(images);
    TextThenImages(text, ImageBlocks(images));
  }

  lemma PieceCanonical(text: string, images: seq<InputImage>, p: nat, i: nat, rest: seq<Block>)
    requires Earliest(text, images) == Some(Hit(p, i)) && Canonical(rest)
    requires multiset(ImagesOf(rest)) == multiset(RemoveAt(images, i))
    ensures Canonical(TextUnlessEmpty(text[..p]) + ([ImageBlock(images[i])] + rest))
  {
    var tail := [ImageBlock(images[i])] + rest;
    assert tail[1..] == rest;
    ImagesCons(images[i], rest);
    forall image | image in ImagesOf(tail) ensures text[..p] == "" || !Occurs(text[..p], image.id) {
      assert image == images[i] || image in multiset(ImagesOf(rest));
      NothingBeforeEarliest(text, images, image);
    }
    TextThenImages(text[..p], tail);
  }

  lemma NothingBeforeEarliest(text: string, images: seq<InputImage>, image: InputImage)
    requires image in images && Earliest(text, images).Some?
    ensures var p := Earliest(text, images).value.pos; p == 0 || !Occurs(text[..p], image.id)
  {
    var p := Earliest(text, images).value.pos;
    EarliestIsFirst(text, images);
    var j :| 0 <= j < |images| && images[j] == image;
    if p > 0 {
      forall q: nat ensures !OccursAt(text[..p], images[j].id, q) {
        OccursInWhole(text, p, images[j].id, q);
      }
    }
  }

  /** Only the empty id can occur at the very end of a part, and then at its start too. */
  lemma OccursInWhole(text: string, p: nat, id: string, q: nat)
    requires p <= |text|
    ensures OccursAt(text[..p], id, q) ==> OccursAt(text, id, q) && q <= p && (q == p ==> OccursAt(text, id, 0))
  {
    if OccursAt(text[..p], id, q) {
      assert text[..p][q..q + |id|] == text[q..q + |id|];
    }
  }

  /** On a canonical list, splitting the printed text gives the list back. */
  lemma {:induction false} SplitUndoesPrint(blocks: seq<Block>, images: seq<InputImage>)
    requires Canonical(blocks) && GoodIds(images)
    requires multiset(images) == multiset(ImagesOf(blocks))
    ensures Split(TextContent(blocks), images) == blocks
    decreases |blocks|
  {
    if ImagesOf(blocks) == [] {
      NoImages(blocks);
      assert |multiset(images)| == 0;
      assert images == [];
    } else {
      var head, image, tail := Uncons(blocks);
      var i := SplitsFirst(blocks, images, head, image, tail);
      SplitUndoesPrint(tail, RemoveAt(images, i));
    }
  }

  /** On such a list the first round finds the first image. */
  lemma SplitsFirst(blocks: seq<Block>, images: seq<InputImage>, head: string, image: InputImage, tail: seq<Block>)
    returns (i: nat)
    requires GoodIds(images) && multiset(images) == multiset(ImagesOf(blocks))
    requires blocks == TextUnlessEmpty(head) + ([ImageBlock(image)] + tail)
    requires forall other :: other in ImagesOf(blocks) ==> head == "" || !Occurs(head, other.id)
    ensures i < |images| && images[i] == image
    ensures multiset(RemoveAt(images, i)) == multiset(ImagesOf(tail)) && GoodIds(RemoveAt(images, i))
    ensures Split(TextContent(blocks), images)
         == TextUnlessEmpty(head) + ([ImageBlock(image)] + Split(TextContent(tail), RemoveAt(images, i)))
  {
    PieceImages(head, image, tail);
    PieceText(head, image, tail);
    i := PlacesFirst(TextContent(blocks), images, head, image, TextContent(tail), ImagesOf(tail));
  }

  lemma PlacesFirst(text: string, images: seq<InputImage>, head: string, image: InputImage,
                    after: string, others: seq<InputImage>)
    returns (i: nat)
    requires GoodIds(images) && multiset(images) == multiset([image] + others)
    requires text == head + (image.id + after)
    requires forall other :: other in [image] + others ==> head == "" || !Occurs(head, other.id)
    ensures i < |images| && images[i] == image
    ensures multiset(RemoveAt(images, i)) == multiset(others) && GoodIds(RemoveAt(images, i))
    ensures Split(text, images)
         == TextUnlessEmpty(head) + ([ImageBlock(image)] + Split(after, RemoveAt(images, i)))
  {
    assert ([image] + others)[0] == image;
    SameMembers(images, [image] + others);
    i := FirstPlaceholder(text, images, head, image, after);
    RemainingImages(images, i, others);
    SplitsOff(text, images, i, head, after);
  }

  lemma SameMembers<T>(s: seq<T>, t: seq<T>)
    requires multiset(s) == multiset(t)
    ensures forall x :: x in s <==> x in t
  {
    assert forall x :: x in s <==> x in multiset(s);
    assert forall x :: x in t <==> x in multiset(t);
  }

  lemma SplitsOff(text: string, images: seq<InputImage>, i: nat, head: string, after: string)
    requires i < |images| && text == head + (images[i].id + after)
    requires Earliest(text, images) == Some(Hit(|head|, i))
    ensures Split(text, images)
         == TextUnlessEmpty(head) + ([ImageBlock(images[i])] + Split(after, RemoveAt(images, i)))
  {
    Suffix(head, images[i].id, after);
    RoundIs(text, images, |head|, i);
    SplitRound(text, images, Round(head, images[i], after, RemoveAt(images, i)));
  }

  lemma RemainingImages(images: seq<InputImage>, i: nat, rest: seq<InputImage>)
    requires i < |images| && multiset(images) == multiset([images[i]] + rest)
    ensures multiset(RemoveAt(images, i)) == multiset(rest)
  {
    RemoveAtCounts(images, i);
    assert multiset([images[i]] + rest) == multiset{images[i]} + multiset(rest);
    assert multiset(RemoveAt(images, i)) == multiset(images) - multiset{images[i]};
  }

  lemma Suffix(a: string, b: string, c: string)
    ensures (a + (b + c))[..|a|] == a && (a + (b + c))[|a| + |b|..] == c
  {}

  /** A canonical list with an image is a text (perhaps none), an image, and a
      canonical rest; the text contains no placeholder. */
  lemma Uncons(blocks: seq<Block>) returns (head: string, image: InputImage, tail: seq<Block>)
    requires Canonical(blocks) && ImagesOf(blocks) != []
    ensures blocks == TextUnlessEmpty(head) + ([ImageBlock(image)] + tail)
    ensures Canonical(tail) && |tail| < |blocks|
    ensures forall other :: other in ImagesOf(blocks) ==> head == "" || !Occurs(head, other.id)
  {
    var first;
    if blocks[0].Text? {
      head, first, tail := blocks[0].text, blocks[1], blocks[2..];
      assert blocks[1..][0] == first && blocks[1..][1..] == tail;
    } else {
      head, first, tail := "", blocks[0], blocks[1..];
    }
    image := InputImage(first.placeholder.value, first.data, first.mediaType);
  }

  lemma SecondIsImage(blocks: seq<Block>)
    requires Canonical(blocks) && |blocks| > 1 && blocks[0].Text?
    ensures ImagesOf(blocks) != []
  {
    assert blocks[1..][0] == blocks[1];
  }

  lemma NoImages(blocks: seq<Block>)
    requires Canonical(blocks) && ImagesOf(blocks) == []
    ensures blocks == TextUnlessEmpty(TextContent(blocks))
  {
    if blocks != [] {
      assert blocks[0].Text?;
      if |blocks| > 1 {
        SecondIsImage(blocks);
      }
      assert blocks == [Text(blocks[0].text)];
      TextAlone(blocks[0].text);
    }
  }

  lemma OccursInPrefix(text: string, head: string, id: string, q: nat)
    requires head <= text && q + |id| <= |head|
    ensures OccursAt(text, id, q) <==> OccursAt(head, id, q)
  {
    assert text[q..q + |id|] == head[q..q + |id|];
  }

  /** No placeholder starts before the head text ends, and only one starts there. */
  lemma FirstPlaceholder(text: string, images: seq<InputImage>, head: string, image: InputImage, after: string)
    returns (i: nat)
    requires GoodIds(images) && image in images
    requires text == head + (image.id + after)
    requires forall other :: other in images ==> head == "" || !Occurs(head, other.id)
    ensures i < |images| && images[i] == image
    ensures Earliest(text, images) == Some(Hit(|head|, i))
  {
    i :| 0 <= i < |images| && images[i] == image;
    assert OccursAt(text, image.id, |head|);
    forall j, q: nat | 0 <= j < |images| && OccursAt(text, images[j].id, q)
      ensures q >= |head|
    {
      var id := images[j].id;
      if q + |id| <= |head| {
        OccursInPrefix(text, head, id, q);
      } else if q < |head| {
        OccurrenceReads(text, id, q, |head| - q);
      }
    }
    EarliestIsFirst(text, images);
    var best := Earliest(text, images).value;
    BracketedMatchIsUnique(text, images[best.index].id, image.id, |head|);
  }

  /** Splitting and printing undo each other.  For well-formed placeholders,
      feeding the printed text and the images of a message back gives the same
      message, exactly when the text was not empty or there was no image. */
  lemma RoundTrip(text: string, images: seq<InputImage>)
    requires GoodIds(images)
    ensures var r := Interleaved(text, images);
            Interleaved(TextContent(r), ImagesOf(r)) == r <==> text != "" || images == []
  {
    var r := Interleaved(text, images);
    if images == [] {
      TextAlone(text);
    } else {
      var again := ImagesOf(r);
      var sorted := SortById(again);
      ImagesConserved(text, images);
      SortByIdSorts(again);
      ReorderedIdsGood(images, sorted);
      assert |multiset(images)| == |images| == |again|;
      PlaceholderPrinted(r);
      assert Interleaved(TextContent(r), again) == Split(TextContent(r), sorted);
      if HasPlaceholder(text, images) {
        SplitCanonical(text, SortById(images));
        SplitUndoesPrint(r, sorted);
        NonEmptyText(text, images);
      } else if text != "" {
        HeadTailCanonical(text, images);
        SplitUndoesPrint(r, sorted);
      } else {
        SplitCanonical(TextContent(r), sorted);
        CanonicalHasNoEmptyText(Split(TextContent(r), sorted), |images|);
        assert r[|images|] == Text("");
      }
    }
  }

  lemma NonEmptyText(text: string, images: seq<InputImage>)
    requires GoodIds(images) && HasPlaceholder(text, images)
    ensures text != ""
  {}

  lemma HeadTailCanonical(text: string, images: seq<InputImage>)
    requires text != ""
    ensures Canonical(ImageBlocks(images) + [Text(text)])
  {
    assert [Text(text)][1..] == [];
    ImageBlocksCanonical(images, [Text(text)]);
  }

  lemma {:induction false} CanonicalHasNoEmptyText(blocks: seq<Block>, i: nat)
    requires Canonical(blocks)
    ensures i < |blocks| ==> blocks[i] != Text("")
  {
    if 0 < i < |blocks| {
      CanonicalHasNoEmptyText(blocks[1..], i - 1);
    }
  }

  lemma {:induction false} GoodIdsOnce(images: seq<InputImage>, a: InputImage)
    requires GoodIds(images)
    ensures multiset(images)[a] <= 1
  {
    if images != [] {
      var front, last := images[..|images| - 1], images[|images| - 1];
      GoodIdsOnce(front, a);
      assert images == front + [last];
      assert last !in front;
    }
  }

  lemma GoodIdsName(images: seq<InputImage>, a: InputImage, b: InputImage)
    requires GoodIds(images) && a in images && b in images
    ensures a.id == b.id ==> a == b
  {}

  lemma ReorderedIdsGood(images: seq<InputImage>, other: seq<InputImage>)
    requires GoodIds(images) && multiset(other) == multiset(images)
    ensures GoodIds(other)
  {
    forall i | 0 <= i < |other| ensures other[i] in images && Bracketed(other[i].id) {
      assert other[i] in multiset(other);
    }
    forall i, j | 0 <= i < j < |other| ensures other[i].id != other[j].id {
      GoodIdsName(images, other[i], other[j]);
      GoodIdsOnce(images, other[i]);
      if other[i] == other[j] {
        CountTwo(other, i, j);
      }
    }
  }

  lemma CountTwo<T>(s: seq<T>, i: nat, j: nat)
    requires i < j < |s| && s[i] == s[j]
    ensures multiset(s)[s[i]] >= 2
  {
    assert s == s[..i] + [s[i]] + s[i + 1..j] + [s[j]] + s[j + 1..];
  }

  /** A message with an image prints a text in which a placeholder occurs. */
  lemma {:induction false} PlaceholderPrinted(blocks: seq<Block>)
    ensures ImagesOf(blocks) != [] ==> HasPlaceholder(TextContent(blocks), ImagesOf(blocks))
  {
    if blocks != [] && ImagesOf(blocks) != [] {
      var text := TextContent(blocks);
      if blocks[0].Image? && blocks[0].placeholder.Some? {
        assert OccursAt(text, ImagesOf(blocks)[0].id, 0);
      } else {
        PlaceholderPrinted(blocks[1..]);
        OccursLater(BlockText(blocks[0]), TextContent(blocks[1..]), ImagesOf(blocks[1..]));
      }
    }
  }

  lemma OccursLater(before: string, text: string, images: seq<InputImage>)
    requires HasPlaceholder(text, images)
    ensures HasPlaceholder(before + text, images)
  {
    var i :| 0 <= i < |images| && Occurs(text, images[i].id);
    var id := images[i].id;
    var q: nat :| OccursAt(text, id, q);
    assert (before + text)[|before| + q..|before| + q + |id|] == text[q..q + |id|];
    assert OccursAt(before + text, id, |before| + q);
  }
}
