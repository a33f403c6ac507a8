/** Rendering the tree of parts of a message. */
module Multipart {
  import opened Text

  datatype MultipartType = NotMultipart | Mixed | Alternative | Related | Unrecognised

  /** A part of a message. Media types are in lower case. */
  datatype Part = Part(
    multipart: MultipartType, mediaType: string, html: bool, body: Option<string>,
    contentAvailable: bool, partialContentAvailable: bool, attachment: bool,
    contentId: string, start: string, parts: seq<Part>)

  /** Which child of which child, and so on. */
  type Path = seq<nat>

  datatype Form = Html | Formatted | Picture | Attachment | Notice

  /** Something that is written for the part at `path`. */
  datatype Piece = Piece(path: Path, form: Form)

  // ----- which parts are shown, and how

  predicate Displayable(part: Part) { part.mediaType == "text" || part.mediaType == "image" }

  predicate AsAttachment(part: Part) { !part.contentAvailable || part.attachment }

  /** How a part without children is shown, if at all. */
  function LeafForm(part: Part): Option<Form>
  {
    if AsAttachment(part) then Some(Attachment)
    else if part.mediaType == "text" then
      match part.body
      case None => Some(Attachment)
      case Some(text) => if text == "" then None else if part.html then Some(Html) else Some(Formatted)
    else if part.mediaType == "image" then Some(Picture)
    else Some(Attachment)
  }

  /** The best alternative is the last one that can be displayed. */
  predicate IsBest(part: Part, i: nat)
  {
    && i < |part.parts|
    && Displayable(part.parts[i])
    && forall j :: i < j < |part.parts| ==> !Displayable(part.parts[j])
  }

  /** The start part is the first one behind part 0 that has the wanted content ID, or part 0. */
  predicate IsStart(part: Part, i: nat)
  {
    if part.start != "" && (exists j :: 1 <= j < |part.parts| && part.parts[j].contentId == part.start) then
      && 1 <= i < |part.parts|
      && part.parts[i].contentId == part.start
      && forall j :: 1 <= j < i ==> part.parts[j].contentId != part.start
    else i == 0
  }

  /** Whether child `i` is rendered as a part of its own. */
  predicate Followed(part: Part, i: nat)
  {
    match part.multipart
    case NotMultipart => false
    case Alternative => IsBest(part, i)
    case Related => IsStart(part, i)
    case _ => true
  }

  /** What is written for the part that is found from `part` along `path[depth..]`. */
  function PieceAt(part: Part, path: Path, depth: nat): Option<Form>
    requires depth <= |path|
    decreases |path| - depth
  {
    if depth == |path| then
      if part.multipart == NotMultipart then LeafForm(part)
      else if part.multipart == Alternative && (forall i :: 0 <= i < |part.parts| ==> !Displayable(part.parts[i])) then Some(Notice)
      else None
    else if path[depth] >= |part.parts| then None
    else if Followed(part, path[depth]) then PieceAt(part.parts[path[depth]], path, depth + 1)
    else if part.multipart == Related && depth + 1 == |path| && !part.parts[path[depth]].partialContentAvailable then
      Some(Attachment)
    else None
  }

  /** Whether the part found that way is handed over as a resource. */
  predicate ResourceAt(part: Part, path: Path, depth: nat)
    requires depth <= |path|
    decreases |path| - depth
  {
    if depth == |path| then
      part.multipart == NotMultipart && !AsAttachment(part) && part.mediaType == "image"
    else if path[depth] >= |part.parts| then false
    else if Followed(part, path[depth]) then ResourceAt(part.parts[path[depth]], path, depth + 1)
    else part.multipart == Related && depth + 1 == |path| && part.parts[path[depth]].partialContentAvailable
  }

  /** The order of display: a start part before its siblings, otherwise as in the message. */
  predicate Precedes(part: Part, p: Path, q: Path, depth: nat)
    requires depth <= |p| && depth <= |q|
    decreases |p| - depth
  {
    if depth == |p| || depth == |q| then depth < |q|
    else if p[depth] == q[depth] then
      p[depth] < |part.parts| && Precedes(part.parts[p[depth]], p, q, depth + 1)
    else if Followed(part, p[depth]) != Followed(part, q[depth]) then Followed(part, p[depth])
    else p[depth] < q[depth]
  }

  // ----- rendering

  /** A related container without parts has no start part to be rendered. */
  predicate Renderable(part: Part)
  {
    && (part.multipart == Related ==> |part.parts| > 0)
    && forall i :: 0 <= i < |part.parts| && Followed(part, i) ==> Renderable(part.parts[i])
  }

  function StartIndex(part: Part, from: nat): (r: nat)
    requires 1 <= from
    ensures r == 0 || (from <= r < |part.parts| && part.parts[r].contentId == part.start)
    ensures forall j :: from <= j < (if r == 0 then |part.parts| else r) ==> part.parts[j].contentId != part.start
    decreases |part.parts| - from
  {
    if from >= |part.parts| then 0
    else if part.parts[from].contentId == part.start then from
    else StartIndex(part, from + 1)
  }

  /** The index of the start part of a related container. */
  function Start(part: Part): (r: nat)
    requires |part.parts| > 0
    ensures r < |part.parts|
    ensures forall i :: IsStart(part, i) <==> i == r
  {
    if part.start == "" then 0 else StartIndex(part, 1)
  }

  /** The index of the best among the first `count` alternatives, or -1. */
  function Best(part: Part, count: nat): (r: int)
    requires count <= |part.parts|
    ensures r == -1 || (0 <= r < count && Displayable(part.parts[r]))
    ensures forall j :: r < j < count && j >= 0 ==> !Displayable(part.parts[j])
  {
    if count == 0 then -1
    else if Displayable(part.parts[count - 1]) then count - 1
    else Best(part, count - 1)
  }

  function Rendered(part: Part, at: Path): seq<Piece>
    requires Renderable(part)
    decreases part, |part.parts| + 1
  {
    match part.multipart
    case NotMultipart => Leaf(part, at)
    case Alternative =>
      var best := Best(part, |part.parts|);
      if best == -1 then [Piece(at, Notice)] else Rendered(part.parts[best], at + [best])
    case Related =>
      Rendered(part.parts[Start(part)], at + [Start(part)]) + Absent(part, at, 0)
    case _ => RenderedFrom(part, at, 0)
  }

  function Leaf(part: Part, at: Path): seq<Piece>
  {
    if LeafForm(part).Some? then [Piece(at, LeafForm(part).value)] else []
  }

  function RenderedFrom(part: Part, at: Path, i: nat): seq<Piece>
    requires Renderable(part) && (part.multipart == Mixed || part.multipart == Unrecognised)
    decreases part, if i < |part.parts| then |part.parts| - i else 0
  {
    if i >= |part.parts| then [] else Rendered(part.parts[i], at + [i]) + RenderedFrom(part, at, i + 1)
  }

  /** The parts of a related container, from `i` on, that can only be shown as attachments. */
  function Absent(part: Part, at: Path, i: nat): seq<Piece>
    requires |part.parts| > 0
    decreases |part.parts| - i
  {
    if i >= |part.parts| then []
    else if i != Start(part) && !part.parts[i].partialContentAvailable then
      [Piece(at + [i], Attachment)] + Absent(part, at, i + 1)
    else Absent(part, at, i + 1)
  }

  /** The others. */
  function Present(part: Part, at: Path, i: nat): seq<Path>
    requires |part.parts| > 0
    decreases |part.parts| - i
  {
    if i >= |part.parts| then []
    else if i != Start(part) && part.parts[i].partialContentAvailable then
      [at + [i]] + Present(part, at, i + 1)
    else Present(part, at, i + 1)
  }

  function Resources(part: Part, at: Path): seq<Path>
    requires Renderable(part)
    decreases part, |part.parts| + 1
  {
    match part.multipart
    case NotMultipart => if !AsAttachment(part) && part.mediaType == "image" then [at] else []
    case Alternative =>
      var best := Best(part, |part.parts|);
      if best == -1 then [] else Resources(part.parts[best], at + [best])
    case Related => Present(part, at, 0) + Resources(part.parts[Start(part)], at + [Start(part)])
    case _ => ResourcesFrom(part, at, 0)
  }

  function ResourcesFrom(part: Part, at: Path, i: nat): seq<Path>
    requires Renderable(part) && (part.multipart == Mixed || part.multipart == Unrecognised)
    decreases part, if i < |part.parts| then |part.parts| - i else 0
  {
    if i >= |part.parts| then [] else Resources(part.parts[i], at + [i]) + ResourcesFrom(part, at, i + 1)
  }

  /** The parts that are looked at, in that order: each one rendered, and each one that is handed
      over or shown beside a start part. */
  function Visits(part: Part, at: Path): seq<Path>
    requires Renderable(part)
    decreases part, |part.parts| + 2
  {
    [at] + VisitsBelow(part, at)
  }

  function VisitsBelow(part: Part, at: Path): seq<Path>
    requires Renderable(part)
    decreases part, |part.parts| + 1
  {
    match part.multipart
    case NotMultipart => []
    case Alternative =>
      var best := Best(part, |part.parts|);
      if best == -1 then [] else Visits(part.parts[best], at + [best])
    case Related =>
      Present(part, at, 0) + (Visits(part.parts[Start(part)], at + [Start(part)]) + Paths(Absent(part, at, 0)))
    case _ => VisitsFrom(part, at, 0)
  }

  function VisitsFrom(part: Part, at: Path, i: nat): seq<Path>
    requires Renderable(part) && (part.multipart == Mixed || part.multipart == Unrecognised)
    decreases part, if i < |part.parts| then |part.parts| - i else 0
  {
    if i >= |part.parts| then [] else Visits(part.parts[i], at + [i]) + VisitsFrom(part, at, i + 1)
  }

  function Paths(pieces: seq<Piece>): (paths: seq<Path>)
    ensures |paths| == |pieces|
    ensures forall i :: 0 <= i < |pieces| ==> paths[i] == pieces[i].path
  {
    seq(|pieces|, i requires 0 <= i < |pieces| => pieces[i].path)
  }

  method FindStart(part: Part) returns (startIndex: nat)
    requires |part.parts| > 0
    ensures startIndex == Start(part)
  {
    startIndex := 0;
    if part.start != "" {
      var i := 1;
      while i < |part.parts|
        invariant 1 <= i
        invariant StartIndex(part, i) == StartIndex(part, 1)
      {
        if part.parts[i].contentId == part.start {
          startIndex := i;
          break;
        }
        i := i + 1;
      }
    }
  }

  method FindBest(part: Part) returns (partIndex: int)
    ensures partIndex == Best(part, |part.parts|)
  {
    partIndex := -1;
    for i := 0 to |part.parts|
      invariant partIndex == Best(part, i)
    {
      if part.parts[i].mediaType == "text" || part.parts[i].mediaType == "image" {
        partIndex := i;
      }
    }
  }

  class Renderer {
    /** The parts the display has been given as resources. */
    var resources: seq<Path>
    /** The parts that have been looked at. */
    ghost var visited: seq<Path>

    constructor ()
      ensures resources == [] && visited == []
    {
      resources, visited := [], [];
    }

    method SetPartResource(at: Path)
      modifies this`resources
      ensures resources == old(resources) + [at]
    {
      resources := resources + [at];
    }

    method RenderSimplePart(part: Part, at: Path) returns (result: seq<Piece>)
      requires !AsAttachment(part) && part.multipart == NotMultipart
      modifies this`resources
      ensures result == Rendered(part, at)
      ensures resources == old(resources) + Resources(part, at)
    {
      result := [];
      if part.mediaType == "text" {
        if part.body.Some? {
          if part.body.value != "" {
            if part.html {
              result := [Piece(at, Html)];
            } else {
              result := [Piece(at, Formatted)];
            }
          }
        } else {
          result := [Piece(at, Attachment)];
        }
      } else if part.mediaType == "image" {
        SetPartResource(at);
        result := [Piece(at, Picture)];
      } else {
        result := [Piece(at, Attachment)];
      }
    }

    method RenderPart(part: Part, at: Path) returns (result: seq<Piece>)
      requires Renderable(part)
      modifies this
      ensures result == Rendered(part, at)
      ensures resources == old(resources) + Resources(part, at)
      ensures visited == old(visited) + Visits(part, at)
      decreases part, 2
    {
      hide Rendered, Resources, VisitsBelow, Renderable;
      LeafParts(part, at);
      ghost var before := visited;
      visited := visited + [at];
      PathsShift(before, [at], VisitsBelow(part, at));
      if part.multipart != NotMultipart {
        result := RenderMultipart(part, at);
      } else if AsAttachment(part) {
        result := [Piece(at, Attachment)];
      } else {
        result := RenderSimplePart(part, at);
      }
    }

    method RenderMultipart(part: Part, at: Path) returns (result: seq<Piece>)
      requires Renderable(part) && part.multipart != NotMultipart
      modifies this
      ensures result == Rendered(part, at)
      ensures resources == old(resources) + Resources(part, at)
      ensures visited == old(visited) + VisitsBelow(part, at)
      decreases part, 1
    {
      hide Rendered, Resources, VisitsBelow;
      if part.multipart == Alternative {
        result := RenderAlternative(part, at);
      } else if part.multipart == Related {
        result := RenderRelated(part, at);
      } else {
        result := RenderMixed(part, at);
      }
    }

    method RenderAlternative(part: Part, at: Path) returns (result: seq<Piece>)
      requires Renderable(part) && part.multipart == Alternative
      modifies this
      ensures result == Rendered(part, at)
      ensures resources == old(resources) + Resources(part, at)
      ensures visited == old(visited) + VisitsBelow(part, at)
      decreases part, 0
    {
      hide Rendered, Resources, Visits, VisitsBelow, Renderable;
      AlternativeParts(part, at);
      var partIndex := FindBest(part);
      assert visited + [] == visited && resources + [] == resources;
      if partIndex != -1 {
        result := RenderPart(part.parts[partIndex], at + [partIndex]);
      } else {
        result := [Piece(at, Notice)];
      }
    }

    method RenderRelated(part: Part, at: Path) returns (result: seq<Piece>)
      requires Renderable(part) && part.multipart == Related
      modifies this
      ensures result == Rendered(part, at)
      ensures resources == old(resources) + Resources(part, at)
      ensures visited == old(visited) + VisitsBelow(part, at)
      decreases part, 0
    {
      hide Rendered, Resources, Visits, VisitsBelow, Present, Absent, Attachments, Paths, Start;
      RelatedParts(part, at);
      ghost var before, seen := resources, visited;
      var startIndex := FindStart(part);
      var absentParts := AddOthers(part, at, startIndex);
      result := RenderPart(part.parts[startIndex], at + [startIndex]);
      ghost var inner := Visits(part.parts[startIndex], at + [startIndex]);
      PathsShift(before, Present(part, at, 0), Resources(part.parts[startIndex], at + [startIndex]));
      PathsShift(seen, Present(part, at, 0), inner);
      PathsShift(Present(part, at, 0), inner, Paths(Absent(part, at, 0)));
      PathsShift(seen, Present(part, at, 0) + inner, Paths(Absent(part, at, 0)));
      result := ShowAbsent(result, at, absentParts);
    }

    method ShowAbsent(shown: seq<Piece>, at: Path, absentParts: seq<nat>) returns (result: seq<Piece>)
      modifies this`visited
      ensures result == shown + Attachments(at, absentParts, 0)
      ensures visited == old(visited) + Paths(Attachments(at, absentParts, 0))
    {
      hide Attachments, Paths;
      ghost var before := visited;
      result := shown;
      for k := 0 to |absentParts|
        invariant result + Attachments(at, absentParts, k) == shown + Attachments(at, absentParts, 0)
        invariant visited + Paths(Attachments(at, absentParts, k)) == before + Paths(Attachments(at, absentParts, 0))
      {
        var path := at + [absentParts[k]];
        AttachmentsStep(at, absentParts, k);
        PiecesShift(result, [Piece(path, Attachment)], Attachments(at, absentParts, k + 1));
        PathsShift(visited, [path], Paths(Attachments(at, absentParts, k + 1)));
        visited := visited + [path];
        result := result + [Piece(path, Attachment)];
      }
      NoAttachments(at, absentParts);
      assert result + [] == result && visited + [] == visited;
    }

    /** Gives the display the parts that are there, and returns the others. */
    method AddOthers(part: Part, at: Path, startIndex: nat) returns (absentParts: seq<nat>)
      requires |part.parts| > 0 && startIndex == Start(part)
      modifies this
      ensures resources == old(resources) + Present(part, at, 0)
      ensures visited == old(visited) + Present(part, at, 0)
      ensures Attachments(at, absentParts, 0) == Absent(part, at, 0)
    {
      hide Start, Present, Absent, Attachments;
      ghost var before, seen := resources, visited;
      absentParts := [];
      NoAttachments(at, absentParts);
      assert [] + Absent(part, at, 0) == Absent(part, at, 0);
      for i := 0 to |part.parts|
        invariant resources + Present(part, at, i) == before + Present(part, at, 0)
        invariant visited + Present(part, at, i) == seen + Present(part, at, 0)
        invariant Attachments(at, absentParts, 0) + Absent(part, at, i) == Absent(part, at, 0)
      {
        OthersStep(part, at, i);
        if i != startIndex {
          if part.parts[i].partialContentAvailable {
            PathsShift(resources, [at + [i]], Present(part, at, i + 1));
            PathsShift(visited, [at + [i]], Present(part, at, i + 1));
            visited := visited + [at + [i]];
            SetPartResource(at + [i]);
          } else {
            AttachmentsAppend(at, absentParts, i, 0);
            PiecesShift(Attachments(at, absentParts, 0), [Piece(at + [i], Attachment)], Absent(part, at, i + 1));
            absentParts := absentParts + [i];
          }
        }
      }
      NoOthers(part, at);
      assert resources + [] == resources && visited + [] == visited;
      assert Attachments(at, absentParts, 0) + [] == Attachments(at, absentParts, 0);
    }

    method RenderMixed(part: Part, at: Path) returns (result: seq<Piece>)
      requires Renderable(part) && (part.multipart == Mixed || part.multipart == Unrecognised)
      modifies this
      ensures result == Rendered(part, at)
      ensures resources == old(resources) + Resources(part, at)
      ensures visited == old(visited) + VisitsBelow(part, at)
      decreases part, 0
    {
      hide Rendered, Resources, RenderedFrom, ResourcesFrom, Visits, VisitsBelow, VisitsFrom;
      MixedParts(part, at);
      result := [];
      for i := 0 to |part.parts|
        invariant result + RenderedFrom(part, at, i) == RenderedFrom(part, at, 0)
        invariant resources + ResourcesFrom(part, at, i) == old(resources) + ResourcesFrom(part, at, 0)
        invariant visited + VisitsFrom(part, at, i) == old(visited) + VisitsFrom(part, at, 0)
      {
        MixedStep(part, at, i);
        PiecesShift(result, Rendered(part.parts[i], at + [i]), RenderedFrom(part, at, i + 1));
        PathsShift(resources, Resources(part.parts[i], at + [i]), ResourcesFrom(part, at, i + 1));
        PathsShift(visited, Visits(part.parts[i], at + [i]), VisitsFrom(part, at, i + 1));
        var piece := RenderPart(part.parts[i], at + [i]);
        result := result + piece;
      }
    }
  }

  lemma {:induction false} AlternativeParts(part: Part, at: Path)
    requires Renderable(part) && part.multipart == Alternative
    ensures var best := Best(part, |part.parts|);
            if best == -1 then
              Rendered(part, at) == [Piece(at, Notice)] && Resources(part, at) == [] && VisitsBelow(part, at) == []
            else
              && Renderable(part.parts[best])
              && Rendered(part, at) == Rendered(part.parts[best], at + [best])
              && Resources(part, at) == Resources(part.parts[best], at + [best])
              && VisitsBelow(part, at) == Visits(part.parts[best], at + [best])
  {}

  lemma {:induction false} RelatedParts(part: Part, at: Path)
    requires Renderable(part) && part.multipart == Related
    ensures |part.parts| > 0 && Renderable(part.parts[Start(part)])
    ensures Rendered(part, at) == Rendered(part.parts[Start(part)], at + [Start(part)]) + Absent(part, at, 0)
    ensures Resources(part, at) == Present(part, at, 0) + Resources(part.parts[Start(part)], at + [Start(part)])
    ensures VisitsBelow(part, at) == Present(part, at, 0) +
              (Visits(part.parts[Start(part)], at + [Start(part)]) + Paths(Absent(part, at, 0)))
  {}

  lemma {:induction false} LeafParts(part: Part, at: Path)
    requires Renderable(part)
    ensures part.multipart == NotMultipart ==> VisitsBelow(part, at) == []
    ensures part.multipart == NotMultipart && AsAttachment(part) ==>
              Rendered(part, at) == [Piece(at, Attachment)] && Resources(part, at) == []
  {}

  lemma {:induction false} OthersStep(part: Part, at: Path, i: nat)
    requires i < |part.parts|
    ensures Absent(part, at, i) ==
            if i != Start(part) && !part.parts[i].partialContentAvailable
            then [Piece(at + [i], Attachment)] + Absent(part, at, i + 1) else Absent(part, at, i + 1)
    ensures Present(part, at, i) ==
            if i != Start(part) && part.parts[i].partialContentAvailable
            then [at + [i]] + Present(part, at, i + 1) else Present(part, at, i + 1)
  {}

  lemma {:induction false} NoOthers(part: Part, at: Path)
    requires |part.parts| > 0
    ensures Absent(part, at, |part.parts|) == [] && Present(part, at, |part.parts|) == []
  {}

  lemma {:induction false} AttachmentsStep(at: Path, indices: seq<nat>, k: nat)
    requires k < |indices|
    ensures Attachments(at, indices, k) == [Piece(at + [indices[k]], Attachment)] + Attachments(at, indices, k + 1)
    ensures Paths(Attachments(at, indices, k)) == [at + [indices[k]]] + Paths(Attachments(at, indices, k + 1))
  {}

  lemma {:induction false} NoAttachments(at: Path, indices: seq<nat>)
    ensures Attachments(at, indices, |indices|) == []
    ensures Paths(Attachments(at, indices, |indices|)) == []
  {}

  lemma {:induction false} PiecesShift(a: seq<Piece>, b: seq<Piece>, c: seq<Piece>)
    ensures (a + b) + c == a + (b + c)
  {}

  lemma {:induction false} PathsShift(a: seq<Path>, b: seq<Path>, c: seq<Path>)
    ensures (a + b) + c == a + (b + c)
  {}

  lemma {:induction false} MixedParts(part: Part, at: Path)
    requires Renderable(part) && (part.multipart == Mixed || part.multipart == Unrecognised)
    ensures Rendered(part, at) == RenderedFrom(part, at, 0)
    ensures Resources(part, at) == ResourcesFrom(part, at, 0)
    ensures VisitsBelow(part, at) == VisitsFrom(part, at, 0)
    ensures RenderedFrom(part, at, |part.parts|) == [] && ResourcesFrom(part, at, |part.parts|) == []
    ensures VisitsFrom(part, at, |part.parts|) == []
  {}

  lemma {:induction false} MixedStep(part: Part, at: Path, i: nat)
    requires Renderable(part) && (part.multipart == Mixed || part.multipart == Unrecognised) && i < |part.parts|
    ensures RenderedFrom(part, at, i) == Rendered(part.parts[i], at + [i]) + RenderedFrom(part, at, i + 1)
    ensures ResourcesFrom(part, at, i) == Resources(part.parts[i], at + [i]) + ResourcesFrom(part, at, i + 1)
    ensures VisitsFrom(part, at, i) == Visits(part.parts[i], at + [i]) + VisitsFrom(part, at, i + 1)
  {}

  function Attachments(at: Path, indices: seq<nat>, k: nat): seq<Piece>
    decreases |indices| - k
  {
    if k >= |indices| then [] else [Piece(at + [indices[k]], Attachment)] + Attachments(at, indices, k + 1)
  }

  lemma {:induction false} AttachmentsAppend(at: Path, indices: seq<nat>, i: nat, k: nat)
    requires k <= |indices|
    ensures Attachments(at, indices + [i], k) == Attachments(at, indices, k) + [Piece(at + [i], Attachment)]
    decreases |indices| - k
  {
    if k < |indices| {
      AttachmentsAppend(at, indices, i, k + 1);
    }
  }

  // ----- exactly the parts to be shown are shown

  predicate Extends(path: Path, at: Path)
  {
    |at| <= |path| && forall k :: 0 <= k < |at| ==> path[k] == at[k]
  }

  ghost predicate ShownAs(part: Part, at: Path, piece: Piece)
  {
    Extends(piece.path, at) && PieceAt(part, piece.path, |at|) == Some(piece.form)
  }

  lemma {:induction false} BestIsBest(part: Part)
    ensures forall i: nat :: IsBest(part, i) <==> i == Best(part, |part.parts|)
  {}

  lemma {:induction false} NoneDisplayable(part: Part)
    requires Best(part, |part.parts|) == -1
    ensures forall i :: 0 <= i < |part.parts| ==> !Displayable(part.parts[i])
  {}

  /** What holds at the child that a path leads into, holds at its parent. */
  lemma {:induction false} ShownThrough(part: Part, at: Path, i: nat, piece: Piece)
    requires i < |part.parts| && Followed(part, i)
    ensures ShownAs(part.parts[i], at + [i], piece) <==>
            ShownAs(part, at, piece) && |piece.path| > |at| && piece.path[|at|] == i
  {
    var deeper := at + [i];
    if Extends(piece.path, deeper) {
      assert piece.path[|at|] == deeper[|at|] == i;
      assert forall k :: 0 <= k < |at| ==> deeper[k] == at[k];
    }
  }

  /** A piece is written for a part exactly when that part is to be shown, in the form in which
      it is to be shown. */
  lemma {:induction false} RenderedExactly(part: Part, at: Path, piece: Piece)
    requires Renderable(part)
    ensures piece in Rendered(part, at) <==> ShownAs(part, at, piece)
    decreases part, |part.parts| + 1
  {
    match part.multipart {
      case NotMultipart =>
        if Extends(piece.path, at) && |piece.path| == |at| {
          assert piece.path == at;
        }
      case Alternative =>
        var best := Best(part, |part.parts|);
        BestIsBest(part);
        if best != -1 {
          RenderedExactly(part.parts[best], at + [best], piece);
          ShownThrough(part, at, best, piece);
          assert Displayable(part.parts[best]);
        } else {
          NoneDisplayable(part);
          if Extends(piece.path, at) && |piece.path| == |at| {
            assert piece.path == at;
          }
        }
      case Related =>
        RenderedExactly(part.parts[Start(part)], at + [Start(part)], piece);
        ShownThrough(part, at, Start(part), piece);
        AbsentExactly(part, at, 0, piece);
      case _ => 
        RenderedFromExactly(part, at, 0, piece);
    }
  }

  lemma {:induction false} RenderedFromExactly(part: Part, at: Path, i: nat, piece: Piece)
    requires Renderable(part) && (part.multipart == Mixed || part.multipart == Unrecognised)
    ensures piece in RenderedFrom(part, at, i) <==>
            ShownAs(part, at, piece) && |piece.path| > |at| && piece.path[|at|] >= i
    decreases part, if i < |part.parts| then |part.parts| - i else 0
  {
    if i < |part.parts| {
      RenderedExactly(part.parts[i], at + [i], piece);
      ShownThrough(part, at, i, piece);
      RenderedFromExactly(part, at, i + 1, piece);
    }
  }

  lemma {:induction false} AbsentExactly(part: Part, at: Path, i: nat, piece: Piece)
    requires part.multipart == Related && |part.parts| > 0
    ensures piece in Absent(part, at, i) <==>
            ShownAs(part, at, piece) && |piece.path| > |at| && piece.path[|at|] >= i && piece.path[|at|] != Start(part)
    decreases |part.parts| - i
  {
    if i < |part.parts| {
      AbsentExactly(part, at, i + 1, piece);
      var path := at + [i];
      if Extends(piece.path, at) && |piece.path| == |at| + 1 && piece.path[|at|] == i {
        assert piece.path == path;
      }
    }
  }

  // ----- in the order of display, and therefore none twice

  predicate Ordered(part: Part, at: Path, pieces: seq<Piece>)
  {
    && (forall k :: 0 <= k < |pieces| ==> Extends(pieces[k].path, at))
    && forall j, k :: 0 <= j < k < |pieces| ==> Precedes(part, pieces[j].path, pieces[k].path, |at|)
  }

  lemma {:induction false} OrderedThrough(part: Part, at: Path, i: nat, pieces: seq<Piece>)
    requires i < |part.parts| && Ordered(part.parts[i], at + [i], pieces)
    ensures Ordered(part, at, pieces)
    ensures forall k :: 0 <= k < |pieces| ==> Into(pieces[k], at, i)
  {
    forall k | 0 <= k < |pieces| ensures Extends(pieces[k].path, at) && Into(pieces[k], at, i) {
      var deeper := at + [i];
      assert pieces[k].path[|at|] == deeper[|at|];
      assert forall l :: 0 <= l < |at| ==> deeper[l] == at[l];
    }
  }

  /** The path of the piece goes on into child `i`. */
  predicate Into(piece: Piece, at: Path, i: nat) { |piece.path| > |at| && piece.path[|at|] == i }

  lemma {:induction false} RenderedInOrder(part: Part, at: Path)
    requires Renderable(part)
    ensures Ordered(part, at, Rendered(part, at))
    decreases part, |part.parts| + 1
  {
    match part.multipart {
      case NotMultipart =>
      case Alternative =>
        var best := Best(part, |part.parts|);
        if best != -1 {
          RenderedInOrder(part.parts[best], at + [best]);
          OrderedThrough(part, at, best, Rendered(part, at));
        }
      case Related =>
        var s := Start(part);
        RenderedInOrder(part.parts[s], at + [s]);
        StartFirst(part, at, Rendered(part.parts[s], at + [s]));
      case _ =>
        RenderedFromInOrder(part, at, 0);
    }
  }

  /** What is shown of the start part comes before the parts beside it. */
  lemma {:induction false} StartFirst(part: Part, at: Path, pieces: seq<Piece>)
    requires part.multipart == Related && |part.parts| > 0
    requires Ordered(part.parts[Start(part)], at + [Start(part)], pieces)
    ensures Ordered(part, at, pieces + Absent(part, at, 0))
  {
    var absent := Absent(part, at, 0);
    OrderedThrough(part, at, Start(part), pieces);
    AbsentInOrder(part, at, 0);
    forall j, k | 0 <= j < |pieces| && 0 <= k < |absent|
      ensures Precedes(part, pieces[j].path, absent[k].path, |at|)
    {
      assert Into(pieces[j], at, Start(part)) && !Into(absent[k], at, Start(part)) && IntoFrom(absent[k], at, 0);
    }
    hide Absent, Precedes, Into, IntoFrom;
    OrderedAppend(part, at, pieces, absent);
  }

  lemma {:induction false} OrderedAppend(part: Part, at: Path, a: seq<Piece>, b: seq<Piece>)
    requires Ordered(part, at, a) && Ordered(part, at, b)
    requires forall j, k :: 0 <= j < |a| && 0 <= k < |b| ==> Precedes(part, a[j].path, b[k].path, |at|)
    ensures Ordered(part, at, a + b)
  {
    hide Precedes, Extends;
  }

  lemma {:induction false} RenderedFromInOrder(part: Part, at: Path, i: nat)
    requires Renderable(part) && (part.multipart == Mixed || part.multipart == Unrecognised)
    ensures Ordered(part, at, RenderedFrom(part, at, i))
    ensures forall k :: 0 <= k < |RenderedFrom(part, at, i)| ==> IntoFrom(RenderedFrom(part, at, i)[k], at, i)
    decreases part, if i < |part.parts| then |part.parts| - i else 0
  {
    if i < |part.parts| {
      RenderedInOrder(part.parts[i], at + [i]);
      OrderedThrough(part, at, i, Rendered(part.parts[i], at + [i]));
      RenderedFromInOrder(part, at, i + 1);
    }
  }

  predicate IntoFrom(piece: Piece, at: Path, i: nat) { |piece.path| > |at| && piece.path[|at|] >= i }

  /** The pieces lead into children from `i` on, none of them into child `except`. */
  predicate Beside(pieces: seq<Piece>, at: Path, i: nat, except: nat)
  {
    forall k :: 0 <= k < |pieces| ==> IntoFrom(pieces[k], at, i) && !Into(pieces[k], at, except)
  }

  lemma {:induction false} AbsentInOrder(part: Part, at: Path, i: nat)
    requires part.multipart == Related && |part.parts| > 0
    ensures Ordered(part, at, Absent(part, at, i)) && Beside(Absent(part, at, i), at, i, Start(part))
    decreases |part.parts| - i
  {
    hide Absent, Start, Ordered, Beside;
    if i < |part.parts| {
      AbsentInOrder(part, at, i + 1);
      OthersStep(part, at, i);
      FurtherBeside(Absent(part, at, i + 1), at, i, Start(part));
      if i != Start(part) && !part.parts[i].partialContentAvailable {
        AbsentOneMore(part, at, i, Absent(part, at, i + 1));
      }
    } else {
      NoneBeside(part, at, i);
    }
  }

  lemma {:induction false} NoneBeside(part: Part, at: Path, i: nat)
    requires 0 < |part.parts| <= i
    ensures Ordered(part, at, Absent(part, at, i)) && Beside(Absent(part, at, i), at, i, Start(part))
  {}

  lemma {:induction false} FurtherBeside(pieces: seq<Piece>, at: Path, i: nat, except: nat)
    requires Beside(pieces, at, i + 1, except)
    ensures Beside(pieces, at, i, except)
  {}

  lemma {:induction false} AbsentOneMore(part: Part, at: Path, i: nat, pieces: seq<Piece>)
    requires part.multipart == Related && i < |part.parts| && i != Start(part) && Ordered(part, at, pieces)
    requires Beside(pieces, at, i + 1, Start(part))
    ensures var more := [Piece(at + [i], Attachment)] + pieces;
            Ordered(part, at, more) && Beside(more, at, i, Start(part))
  {
    hide Start;
    var first := [Piece(at + [i], Attachment)];
    forall k | 0 <= k < |pieces| ensures Precedes(part, first[0].path, pieces[k].path, |at|) {
      assert IntoFrom(pieces[k], at, i + 1) && !Into(pieces[k], at, Start(part));
    }
    hide Precedes;
    OrderedAppend(part, at, first, pieces);
  }

  lemma {:induction false} PrecedesItself(part: Part, p: Path, depth: nat)
    requires depth <= |p|
    ensures !Precedes(part, p, p, depth)
    decreases |p| - depth
  {
    if depth < |p| && p[depth] < |part.parts| {
      PrecedesItself(part.parts[p[depth]], p, depth + 1);
    }
  }

  lemma {:induction false} NoPartTwice(part: Part, at: Path, j: nat, k: nat)
    requires Renderable(part) && j < k < |Rendered(part, at)|
    ensures Rendered(part, at)[j].path != Rendered(part, at)[k].path
  {
    RenderedInOrder(part, at);
    PrecedesItself(part, Rendered(part, at)[j].path, |at|);
  }

  // ----- resources

  ghost predicate Handed(part: Part, at: Path, path: Path)
  {
    Extends(path, at) && ResourceAt(part, path, |at|)
  }

  lemma {:induction false} HandedThrough(part: Part, at: Path, i: nat, path: Path)
    requires i < |part.parts| && Followed(part, i)
    ensures Handed(part.parts[i], at + [i], path) <==>
            Handed(part, at, path) && |path| > |at| && path[|at|] == i
  {
    var deeper := at + [i];
    if Extends(path, deeper) {
      assert path[|at|] == deeper[|at|] == i;
      assert forall k :: 0 <= k < |at| ==> deeper[k] == at[k];
    }
  }

  predicate Distinct(paths: seq<Path>)
  {
    forall j, k :: 0 <= j < k < |paths| ==> paths[j] != paths[k]
  }

  lemma {:induction false} DistinctAppend(a: seq<Path>, b: seq<Path>)
    requires Distinct(a) && Distinct(b) && forall p :: p in a ==> p !in b
    ensures Distinct(a + b)
  {
    forall j, k | 0 <= j < k < |a + b| ensures (a + b)[j] != (a + b)[k] {
      if j < |a| <= k {
        assert a[j] in a && b[k - |a|] in b;
      }
    }
  }

  /** The display is given exactly the parts that are resources, each of them once. */
  lemma {:induction false} ResourcesExactly(part: Part, at: Path)
    requires Renderable(part)
    ensures forall path :: path in Resources(part, at) <==> Handed(part, at, path)
    ensures Distinct(Resources(part, at))
    decreases part, |part.parts| + 1
  {
    match part.multipart {
      case NotMultipart =>
        forall path ensures path in Resources(part, at) <==> Handed(part, at, path) {
          if Extends(path, at) && |path| == |at| {
            assert path == at;
          }
        }
      case Alternative =>
        var best := Best(part, |part.parts|);
        BestIsBest(part);
        if best != -1 {
          ResourcesExactly(part.parts[best], at + [best]);
          forall path ensures Handed(part.parts[best], at + [best], path) <==> Handed(part, at, path) {
            HandedThrough(part, at, best, path);
          }
        }
      case Related =>
        var s := Start(part);
        ResourcesExactly(part.parts[s], at + [s]);
        PresentDistinct(part, at, 0);
        forall path ensures path in Present(part, at, 0) <==> Handed(part, at, path) && |path| > |at| && path[|at|] != s {
          PresentExactly(part, at, 0, path);
        }
        forall path ensures path in Resources(part.parts[s], at + [s]) <==> Handed(part, at, path) && |path| > |at| && path[|at|] == s {
          HandedThrough(part, at, s, path);
        }
        DistinctAppend(Present(part, at, 0), Resources(part.parts[s], at + [s]));
      case _ =>
        ResourcesFromExactly(part, at, 0);
    }
  }

  lemma {:induction false} ResourcesFromExactly(part: Part, at: Path, i: nat)
    requires Renderable(part) && (part.multipart == Mixed || part.multipart == Unrecognised)
    ensures forall path :: path in ResourcesFrom(part, at, i) <==>
              Handed(part, at, path) && |path| > |at| && path[|at|] >= i
    ensures Distinct(ResourcesFrom(part, at, i))
    decreases part, if i < |part.parts| then |part.parts| - i else 0
  {
    if i < |part.parts| {
      var here, later := Resources(part.parts[i], at + [i]), ResourcesFrom(part, at, i + 1);
      ResourcesExactly(part.parts[i], at + [i]);
      ResourcesFromExactly(part, at, i + 1);
      forall path ensures path in here <==> Handed(part, at, path) && |path| > |at| && path[|at|] == i {
        HandedThrough(part, at, i, path);
      }
      DistinctAppend(here, later);
    }
  }

  lemma {:induction false} PresentExactly(part: Part, at: Path, i: nat, path: Path)
    requires part.multipart == Related && |part.parts| > 0
    ensures path in Present(part, at, i) <==>
            Handed(part, at, path) && |path| > |at| && path[|at|] >= i && path[|at|] != Start(part)
    decreases |part.parts| - i
  {
    if i < |part.parts| {
      PresentExactly(part, at, i + 1, path);
      if Extends(path, at) && |path| == |at| + 1 && path[|at|] == i {
        assert path == at + [i];
      }
    }
  }

  lemma {:induction false} PresentDistinct(part: Part, at: Path, i: nat)
    requires part.multipart == Related && |part.parts| > 0
    ensures Distinct(Present(part, at, i))
    decreases |part.parts| - i
  {
    hide Distinct, Present, Absent, Handed, Start;
    if i < |part.parts| {
      PresentDistinct(part, at, i + 1);
      PresentExactly(part, at, i + 1, at + [i]);
      OthersStep(part, at, i);
      DistinctCons(at + [i], Present(part, at, i + 1));
    } else {
      NoneVisited(part, at, i, at);
      DistinctNone();
    }
  }

  // ----- no part is looked at twice

  /** Whether the part found along `path[depth..]` is looked at. */
  ghost predicate VisitedAt(part: Part, path: Path, depth: nat)
    requires depth <= |path|
    decreases |path| - depth
  {
    depth == |path| ||
    (path[depth] < |part.parts| &&
     if Followed(part, path[depth]) then VisitedAt(part.parts[path[depth]], path, depth + 1)
     else part.multipart == Related && depth + 1 == |path|)
  }

  ghost predicate Visited(part: Part, at: Path, path: Path)
  {
    Extends(path, at) && VisitedAt(part, path, |at|)
  }

  /** The path goes on into a child from `i` on, but not into the child `except`. */
  predicate Below(path: Path, at: Path, i: nat, except: int)
  {
    |path| > |at| && path[|at|] >= i && path[|at|] != except
  }

  lemma {:induction false} VisitedThrough(part: Part, at: Path, i: nat, path: Path)
    requires i < |part.parts| && Followed(part, i)
    ensures Visited(part.parts[i], at + [i], path) <==>
            Visited(part, at, path) && |path| > |at| && path[|at|] == i
  {
    var deeper := at + [i];
    if Extends(path, deeper) {
      assert path[|at|] == deeper[|at|] == i;
      assert forall k :: 0 <= k < |at| ==> deeper[k] == at[k];
    }
  }

  /** A part is looked at exactly if all containers above it are followed, or it stands beside the
      start part of one. */
  lemma {:induction false} VisitsExactly(part: Part, at: Path, path: Path)
    requires Renderable(part)
    ensures path in Visits(part, at) <==> Visited(part, at, path)
    decreases part, |part.parts| + 2
  {
    if Extends(path, at) && |path| == |at| {
      assert path == at;
    }
    VisitsBelowExactly(part, at, path);
  }

  lemma {:induction false} VisitsBelowExactly(part: Part, at: Path, path: Path)
    requires Renderable(part)
    ensures path in VisitsBelow(part, at) <==> Visited(part, at, path) && |path| > |at|
    decreases part, |part.parts| + 1
  {
    match part.multipart {
      case NotMultipart =>
      case Alternative =>
        var best := Best(part, |part.parts|);
        BestIsBest(part);
        if best != -1 {
          VisitsExactly(part.parts[best], at + [best], path);
          VisitedThrough(part, at, best, path);
        }
      case Related =>
        var s := Start(part);
        VisitsExactly(part.parts[s], at + [s], path);
        VisitedThrough(part, at, s, path);
        OthersVisited(part, at, 0, path);
        hide Visits, Visited, Present, Absent, Paths;
      case _ =>
        VisitsFromExactly(part, at, 0, path);
    }
  }

  lemma {:induction false} VisitsFromExactly(part: Part, at: Path, i: nat, path: Path)
    requires Renderable(part) && (part.multipart == Mixed || part.multipart == Unrecognised)
    ensures path in VisitsFrom(part, at, i) <==> Visited(part, at, path) && Below(path, at, i, -1)
    decreases part, if i < |part.parts| then |part.parts| - i else 0
  {
    if i < |part.parts| {
      VisitsExactly(part.parts[i], at + [i], path);
      VisitedThrough(part, at, i, path);
      VisitsFromExactly(part, at, i + 1, path);
    }
  }

  lemma {:induction false} BesideVisited(part: Part, at: Path, i: nat, path: Path)
    requires part.multipart == Related && i < |part.parts| && i != Start(part)
    ensures Visited(part, at, path) && |path| > |at| && path[|at|] == i <==> path == at + [i]
  {
    if Extends(path, at) && |path| == |at| + 1 && path[|at|] == i {
      assert path == at + [i];
    }
  }

  lemma {:induction false} BelowStep(path: Path, at: Path, i: nat, except: int)
    ensures Below(path, at, i, except) <==>
            Below(path, at, i + 1, except) || (|path| > |at| && path[|at|] == i && i != except)
    ensures !Below(at + [i], at, i + 1, except)
  {}

  lemma {:induction false} InCons(path: Path, first: Path, rest: seq<Path>)
    ensures path in [first] + rest <==> path == first || path in rest
  {}

  /** Each part beside a start part is among those present or among those absent. */
  lemma {:induction false} OthersVisited(part: Part, at: Path, i: nat, path: Path)
    requires part.multipart == Related && 0 < |part.parts|
    ensures path in Present(part, at, i) || path in Paths(Absent(part, at, i)) <==>
            Visited(part, at, path) && Below(path, at, i, Start(part))
    ensures !(path in Present(part, at, i) && path in Paths(Absent(part, at, i)))
    decreases |part.parts| - i
  {
    hide Visited, Present, Absent, Paths, Below, Start;
    if i < |part.parts| {
      OthersVisited(part, at, i + 1, path);
      OthersStep(part, at, i);
      BelowStep(path, at, i, Start(part));
      PathsCons(Piece(at + [i], Attachment), Absent(part, at, i + 1));
      if i != Start(part) {
        BesideVisited(part, at, i, path);
        InCons(path, at + [i], Present(part, at, i + 1));
        InCons(path, at + [i], Paths(Absent(part, at, i + 1)));
      }
    } else {
      NoneVisited(part, at, i, path);
    }
  }

  lemma {:induction false} NoneVisited(part: Part, at: Path, i: nat, path: Path)
    requires 0 < |part.parts| <= i
    ensures Present(part, at, i) == [] && Paths(Absent(part, at, i)) == []
    ensures !(Visited(part, at, path) && Below(path, at, i, Start(part)))
  {}

  lemma {:induction false} PathsCons(piece: Piece, pieces: seq<Piece>)
    ensures Paths([piece] + pieces) == [piece.path] + Paths(pieces)
  {}

  /** However a tree is rendered, no part of it is looked at twice. */
  lemma {:induction false} NoPartVisitedTwice(part: Part, at: Path)
    requires Renderable(part)
    ensures Distinct(Visits(part, at))
    decreases part, |part.parts| + 2
  {
    VisitsBelowDistinct(part, at);
    VisitsBelowExactly(part, at, at);
    DistinctAppend([at], VisitsBelow(part, at));
  }

  lemma {:induction false} VisitsBelowDistinct(part: Part, at: Path)
    requires Renderable(part)
    ensures Distinct(VisitsBelow(part, at))
    decreases part, |part.parts| + 1
  {
    match part.multipart {
      case NotMultipart =>
      case Alternative =>
        var best := Best(part, |part.parts|);
        if best != -1 {
          NoPartVisitedTwice(part.parts[best], at + [best]);
        }
      case Related =>
        RelatedDistinct(part, at);
      case _ =>
        VisitsFromDistinct(part, at, 0);
    }
  }

  lemma {:induction false} RelatedDistinct(part: Part, at: Path)
    requires Renderable(part) && part.multipart == Related
    ensures Distinct(VisitsBelow(part, at))
    decreases part, |part.parts|
  {
    hide Distinct, Present, Absent, Paths, Visits, VisitsBelow, Visited;
    RelatedParts(part, at);
    var s := Start(part);
    var present, inner, absent := Present(part, at, 0), Visits(part.parts[s], at + [s]), Paths(Absent(part, at, 0));
    NoPartVisitedTwice(part.parts[s], at + [s]);
    PresentDistinct(part, at, 0);
    AbsentDistinct(part, at, 0);
    forall path ensures !(path in inner && (path in present || path in absent)) && !(path in present && path in absent) {
      VisitsExactly(part.parts[s], at + [s], path);
      VisitedThrough(part, at, s, path);
      OthersVisited(part, at, 0, path);
    }
    DistinctAppend(inner, absent);
    DistinctAppend(present, inner + absent);
  }

  lemma {:induction false} AbsentDistinct(part: Part, at: Path, i: nat)
    requires part.multipart == Related && |part.parts| > 0
    ensures Distinct(Paths(Absent(part, at, i)))
    decreases |part.parts| - i
  {
    hide Distinct, Absent, Present, Paths, Visited, Below, Start;
    if i < |part.parts| {
      AbsentDistinct(part, at, i + 1);
      OthersVisited(part, at, i + 1, at + [i]);
      BelowStep(at + [i], at, i, Start(part));
      OthersStep(part, at, i);
      PathsCons(Piece(at + [i], Attachment), Absent(part, at, i + 1));
      DistinctCons(at + [i], Paths(Absent(part, at, i + 1)));
    } else {
      NoneVisited(part, at, i, at);
      DistinctNone();
    }
  }

  lemma {:induction false} DistinctCons(first: Path, rest: seq<Path>)
    requires Distinct(rest) && first !in rest
    ensures Distinct([first] + rest)
  {
    DistinctAppend([first], rest);
  }

  lemma {:induction false} DistinctNone()
    ensures Distinct([])
  {}

  lemma {:induction false} VisitsFromDistinct(part: Part, at: Path, i: nat)
    requires Renderable(part) && (part.multipart == Mixed || part.multipart == Unrecognised)
    ensures Distinct(VisitsFrom(part, at, i))
    decreases part, if i < |part.parts| then |part.parts| - i else 0
  {
    if i < |part.parts| {
      hide Distinct, Visits, Visited;
      var here, later := Visits(part.parts[i], at + [i]), VisitsFrom(part, at, i + 1);
      NoPartVisitedTwice(part.parts[i], at + [i]);
      VisitsFromDistinct(part, at, i + 1);
      forall path ensures !(path in here && path in later) {
        VisitsExactly(part.parts[i], at + [i], path);
        VisitedThrough(part, at, i, path);
        VisitsFromExactly(part, at, i + 1, path);
      }
      DistinctAppend(here, later);
    }
  }

  // ----- when a part that does not exist is asked for

  /** `path[depth..]` leads, through children that are followed, to a related container without
      parts. */
  predicate LeadsToMissing(part: Part, path: Path, depth: nat)
    requires depth <= |path|
    decreases |path| - depth
  {
    if depth == |path| then part.multipart == Related && |part.parts| == 0
    else
      path[depth] < |part.parts| && Followed(part, path[depth])
      && LeadsToMissing(part.parts[path[depth]], path, depth + 1)
  }

  lemma {:induction false} FindMissing(part: Part, at: Path) returns (path: Path)
    requires !Renderable(part)
    ensures Extends(path, at) && LeadsToMissing(part, path, |at|)
  {
    if part.multipart == Related && |part.parts| == 0 {
      path := at;
    } else {
      var i :| 0 <= i < |part.parts| && Followed(part, i) && !Renderable(part.parts[i]);
      path := FindMissing(part.parts[i], at + [i]);
      var deeper := at + [i];
      assert path[|at|] == deeper[|at|] == i;
      assert forall k :: 0 <= k < |at| ==> deeper[k] == at[k];
    }
  }

  lemma {:induction false} MissingIsAskedFor(part: Part, path: Path, depth: nat)
    requires depth <= |path| && LeadsToMissing(part, path, depth)
    ensures !Renderable(part)
    decreases |path| - depth
  {
    if depth < |path| {
      MissingIsAskedFor(part.parts[path[depth]], path, depth + 1);
    }
  }

  predicate Misses(part: Part, path: Path) { LeadsToMissing(part, path, 0) }

  /** Part 0 of a container without parts is asked for exactly if some path through children that
      are followed ends at a related container without parts. */
  lemma {:induction false} RenderableExactly(part: Part)
    ensures !Renderable(part) <==> exists path: Path :: Misses(part, path)
  {
    if Renderable(part) {
      forall path: Path ensures !Misses(part, path) {
        if Misses(part, path) {
          MissingIsAskedFor(part, path, 0);
        }
      }
    } else {
      var at: Path := [];
      var path := FindMissing(part, at);
      assert Misses(part, path);
    }
  }

  /** Of the parts beside a start part, each becomes either a resource or an attachment. */
  lemma {:induction false} BesideStart(part: Part, at: Path, i: nat)
    requires Renderable(part) && part.multipart == Related && i < |part.parts| && !IsStart(part, i)
    ensures (at + [i] in Resources(part, at)) != (Piece(at + [i], Attachment) in Rendered(part, at))
    ensures forall piece :: piece in Rendered(part, at) && Into(piece, at, i) ==> piece == Piece(at + [i], Attachment)
  {
    ResourcesExactly(part, at);
    var path := at + [i];
    assert path[|at|] == i && Extends(path, at);
    RenderedExactly(part, at, Piece(path, Attachment));
    forall piece | piece in Rendered(part, at) && Into(piece, at, i) ensures piece == Piece(path, Attachment) {
      RenderedExactly(part, at, piece);
      assert piece.path == path;
    }
  }

  // ----- what a part becomes, from its fields

  predicate IsTextOrImage(part: Part) { part.mediaType in {"text", "image"} }

  /** The child that is rendered out of its container: the last text or image of alternatives, the
      first child behind child 0 that a related container names as its start, or child 0 if it names
      none, and each child of the other containers. */
  predicate Chosen(part: Part, i: nat)
    requires i < |part.parts|
  {
    match part.multipart
    case NotMultipart => false
    case Alternative =>
      IsTextOrImage(part.parts[i]) && forall j :: i < j < |part.parts| ==> !IsTextOrImage(part.parts[j])
    case Related =>
      if i == 0 then part.start == "" || forall j :: 1 <= j < |part.parts| ==> part.parts[j].contentId != part.start
      else
        && part.start != "" && part.parts[i].contentId == part.start
        && forall j :: 1 <= j < i ==> part.parts[j].contentId != part.start
    case Mixed => true
    case Unrecognised => true
  }

  lemma {:induction false} ChosenIsFollowed(part: Part, i: nat)
    requires i < |part.parts|
    ensures Chosen(part, i) <==> Followed(part, i)
  {
    if part.multipart == Alternative {
      forall j | 0 <= j < |part.parts| ensures IsTextOrImage(part.parts[j]) <==> Displayable(part.parts[j]) {}
    }
  }

  /** The part that is reached along `path[depth..end]` through children that are rendered. */
  function Reached(part: Part, path: Path, depth: nat, end: nat): Option<Part>
    requires depth <= end <= |path|
    decreases end - depth
  {
    if depth == end then Some(part)
    else if path[depth] < |part.parts| && Chosen(part, path[depth])
    then Reached(part.parts[path[depth]], path, depth + 1, end)
    else None
  }

  /** A part without children whose content is there and that is not marked as an attachment. */
  predicate Inline(part: Part, mediaType: string)
  {
    part.multipart == NotMultipart && part.contentAvailable && !part.attachment && part.mediaType == mediaType
  }

  predicate InlineText(part: Part, html: bool)
  {
    Inline(part, "text") && part.html == html && part.body.Some? && part.body.value != ""
  }

  /** A part without children that can only be had as an attachment. */
  predicate OnlyAttached(part: Part)
  {
    part.multipart == NotMultipart &&
    (!part.contentAvailable || part.attachment || !IsTextOrImage(part) || (part.mediaType == "text" && part.body.None?))
  }

  predicate NothingToChoose(part: Part)
  {
    part.multipart == Alternative && forall i :: 0 <= i < |part.parts| ==> !IsTextOrImage(part.parts[i])
  }

  /** The last step of the path leads to a part beside the start part of a related container. */
  predicate BesideReached(part: Part, path: Path, depth: nat, there: bool)
    requires depth <= |path|
  {
    depth < |path| &&
    match Reached(part, path, depth, |path| - 1)
    case None => false
    case Some(container) =>
      var i := path[|path| - 1];
      && container.multipart == Related && i < |container.parts| && !Chosen(container, i)
      && container.parts[i].partialContentAvailable == there
  }

  /** What the part that a path reaches is written as. */
  predicate Becomes(part: Part, path: Path, depth: nat, form: Form)
    requires depth <= |path|
  {
    var reached := Reached(part, path, depth, |path|);
    match form
    case Html => reached.Some? && InlineText(reached.value, true)
    case Formatted => reached.Some? && InlineText(reached.value, false)
    case Picture => reached.Some? && Inline(reached.value, "image")
    case Notice => reached.Some? && NothingToChoose(reached.value)
    case Attachment => (reached.Some? && OnlyAttached(reached.value)) || BesideReached(part, path, depth, false)
  }

  lemma {:induction false} BecomesHere(part: Part, path: Path, form: Form)
    ensures PieceAt(part, path, |path|) == Some(form) <==> Becomes(part, path, |path|, form)
  {
    forall j | 0 <= j < |part.parts| ensures IsTextOrImage(part.parts[j]) <==> Displayable(part.parts[j]) {}
  }

  lemma {:induction false} BecomesBelow(part: Part, path: Path, depth: nat, form: Form)
    requires depth < |path| && path[depth] < |part.parts| && Chosen(part, path[depth])
    ensures Becomes(part, path, depth, form) <==> Becomes(part.parts[path[depth]], path, depth + 1, form)
  {
    hide Chosen, InlineText, Inline, NothingToChoose, OnlyAttached;
  }

  lemma {:induction false} BecomesBeside(part: Part, path: Path, depth: nat, form: Form)
    requires depth < |path| && (path[depth] < |part.parts| ==> !Chosen(part, path[depth]))
    ensures Becomes(part, path, depth, form) <==>
            && form == Attachment && part.multipart == Related && depth + 1 == |path| && path[depth] < |part.parts|
            && !part.parts[path[depth]].partialContentAvailable
  {
    hide Chosen, InlineText, Inline, NothingToChoose, OnlyAttached;
  }

  lemma {:induction false} PieceExactly(part: Part, path: Path, depth: nat, form: Form)
    requires depth <= |path|
    ensures PieceAt(part, path, depth) == Some(form) <==> Becomes(part, path, depth, form)
    decreases |path| - depth
  {
    hide Becomes, Followed, Chosen;
    if depth == |path| {
      BecomesHere(part, path, form);
    } else if path[depth] < |part.parts| {
      ChosenIsFollowed(part, path[depth]);
      if Chosen(part, path[depth]) {
        BecomesBelow(part, path, depth, form);
        PieceExactly(part.parts[path[depth]], path, depth + 1, form);
      } else {
        BecomesBeside(part, path, depth, form);
      }
    } else {
      BecomesBeside(part, path, depth, form);
    }
  }

  /** Which parts of a message are written raw, formatted, as pictures, as attachments and as the
      notice that nothing can be displayed. */
  lemma {:induction false} FormsExactly(message: Part, path: Path, form: Form)
    requires Renderable(message)
    ensures Piece(path, form) in Rendered(message, []) <==> Becomes(message, path, 0, form)
  {
    hide Becomes, PieceAt, Rendered, Renderable;
    RenderedExactly(message, [], Piece(path, form));
    PieceExactly(message, path, 0, form);
  }

  lemma {:induction false} HandedBeside(part: Part, path: Path, depth: nat)
    requires depth < |path| && (path[depth] < |part.parts| ==> !Chosen(part, path[depth]))
    ensures Reached(part, path, depth, |path|).None?
    ensures BesideReached(part, path, depth, true) <==>
            && part.multipart == Related && depth + 1 == |path| && path[depth] < |part.parts|
            && part.parts[path[depth]].partialContentAvailable
  {
    hide Chosen;
  }

  lemma {:induction false} HandedBelow(part: Part, path: Path, depth: nat)
    requires depth < |path| && path[depth] < |part.parts| && Chosen(part, path[depth])
    ensures var child := part.parts[path[depth]];
            && Reached(part, path, depth, |path|) == Reached(child, path, depth + 1, |path|)
            && (BesideReached(part, path, depth, true) <==> BesideReached(child, path, depth + 1, true))
  {
    hide Chosen;
  }

  /** A picture is handed over to the display, or a part that is there beside a start part. */
  predicate IsHanded(part: Part, path: Path, depth: nat)
    requires depth <= |path|
  {
    var reached := Reached(part, path, depth, |path|);
    (reached.Some? && Inline(reached.value, "image")) || BesideReached(part, path, depth, true)
  }

  lemma {:induction false} HandedExactly(part: Part, path: Path, depth: nat)
    requires depth <= |path|
    ensures ResourceAt(part, path, depth) <==> IsHanded(part, path, depth)
    decreases |path| - depth
  {
    hide Followed, Chosen, Reached, BesideReached;
    if depth == |path| {
      HandedHere(part, path);
    } else if path[depth] < |part.parts| {
      ChosenIsFollowed(part, path[depth]);
      if Chosen(part, path[depth]) {
        HandedBelow(part, path, depth);
        HandedExactly(part.parts[path[depth]], path, depth + 1);
      } else {
        HandedBeside(part, path, depth);
      }
    } else {
      HandedBeside(part, path, depth);
    }
  }

  lemma {:induction false} HandedHere(part: Part, path: Path)
    ensures Reached(part, path, |path|, |path|) == Some(part) && !BesideReached(part, path, |path|, true)
  {}

  lemma {:induction false} ResourcesFromFields(message: Part, path: Path)
    requires Renderable(message)
    ensures path in Resources(message, []) <==> IsHanded(message, path, 0)
  {
    hide IsHanded, ResourceAt, Resources, Renderable;
    ResourcesExactly(message, []);
    HandedExactly(message, path, 0);
  }
}
