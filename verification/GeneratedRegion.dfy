/**
 The generated-region rewriter of `generate-docs.ts`: text between the START and END markers is
 replaced, and `generateDocs` either writes the three documents or reports which ones drifted.
 */
module GeneratedRegion {
  import opened Prelude

  const GENERATED_START: string := "<!-- GENERATED:START -->"
  const GENERATED_END: string := "<!-- GENERATED:END -->"

  predicate OccursAt(text: string, pattern: string, i: nat) {
    i + |pattern| <= |text| && text[i..i + |pattern|] == pattern
  }

  predicate Contains(text: string, pattern: string) {
    exists i: nat :: i <= |text| && OccursAt(text, pattern, i)
  }

  /** `String.prototype.indexOf`. */
  method IndexOf(text: string, pattern: string) returns (index: int)
    ensures index == FirstIndex(text, pattern)
  {
    var i := 0;
    while i + |pattern| <= |text|
      invariant forall j: nat :: j < i ==> !OccursAt(text, pattern, j)
    {
      if text[i..i + |pattern|] == pattern {
        FirstIndexIs(text, pattern, i);
        return i;
      }
      i := i + 1;
    }
    FirstIndexNone(text, pattern);
    return -1;
  }

  /** The least position at which `pattern` occurs, or -1. */
  ghost function FirstIndex(text: string, pattern: string): (index: int)
    ensures index == -1 || 0 <= index <= index + |pattern| <= |text|
  {
    SearchFrom(text, pattern, 0)
  }

  ghost function SearchFrom(text: string, pattern: string, from: nat): (index: int)
    requires from <= |text| + 1
    ensures index == -1 || from <= index <= index + |pattern| <= |text|
    decreases |text| + 1 - from
  {
    if |text| < from then -1
    else if OccursAt(text, pattern, from) then from
    else SearchFrom(text, pattern, from + 1)
  }

  lemma {:induction false} SearchFinds(text: string, pattern: string, from: nat)
    requires from <= |text| + 1
    ensures var index := SearchFrom(text, pattern, from);
            && (index >= 0 ==> OccursAt(text, pattern, index))
            && (forall j: nat :: from <= j && (index == -1 || j < index) ==> !OccursAt(text, pattern, j))
    decreases |text| + 1 - from
  {
    if from <= |text| && !OccursAt(text, pattern, from) { SearchFinds(text, pattern, from + 1); }
  }

  lemma FirstIndexFinds(text: string, pattern: string)
    ensures var index := FirstIndex(text, pattern);
            && (index >= 0 ==> OccursAt(text, pattern, index))
            && (forall j: nat :: index == -1 || j < index ==> !OccursAt(text, pattern, j))
  {
    SearchFinds(text, pattern, 0);
  }

  lemma FirstIndexIs(text: string, pattern: string, i: nat)
    requires OccursAt(text, pattern, i) && forall j: nat :: j < i ==> !OccursAt(text, pattern, j)
    ensures FirstIndex(text, pattern) == i
  {
    FirstIndexFinds(text, pattern);
  }

  lemma FirstIndexNone(text: string, pattern: string)
    requires !Contains(text, pattern) || forall j: nat :: j + |pattern| <= |text| ==> !OccursAt(text, pattern, j)
    ensures FirstIndex(text, pattern) == -1
  {
    FirstIndexFinds(text, pattern);
  }

  ghost predicate HasRegion(text: string) {
    FirstIndex(text, GENERATED_START) != -1
    && FirstIndex(text, GENERATED_START) <= FirstIndex(text, GENERATED_END)
  }

  datatype Error = MissingMarkers

  /** Everything up to and including the START marker. */
  ghost function Before(text: string): string
    requires HasRegion(text)
  {
    text[..FirstIndex(text, GENERATED_START) + |GENERATED_START|]
  }

  /** The END marker and everything after it. */
  ghost function Rest(text: string): string
    requires HasRegion(text)
  {
    text[FirstIndex(text, GENERATED_END)..]
  }

  ghost function Rewritten(text: string, body: string): Result<string, Error> {
    if HasRegion(text) then Ok(Before(text) + "\n" + body + "\n" + Rest(text)) else Err(MissingMarkers)
  }

  method RewriteRegion(text: string, body: string) returns (r: Result<string, Error>)
    ensures r == Rewritten(text, body)
  {
    var start := IndexOf(text, GENERATED_START);
    var end := IndexOf(text, GENERATED_END);
    if start == -1 || end == -1 || end < start {
      return Err(MissingMarkers);
    }
    var before := text[..start + |GENERATED_START|];
    var after := text[end..];
    return Ok(before + "\n" + body + "\n" + after);
  }

  // ----- Where the markers land in a rewritten text -----

  lemma PrefixOccurrence(text: string, text': string, pattern: string, i: nat, keep: nat)
    requires keep <= |text| && keep <= |text'| && text[..keep] == text'[..keep] && i + |pattern| <= keep
    ensures OccursAt(text, pattern, i) <==> OccursAt(text', pattern, i)
  {
    assert text[i..i + |pattern|] == text[..keep][i..i + |pattern|];
    assert text'[i..i + |pattern|] == text'[..keep][i..i + |pattern|];
  }

  lemma InfixOccurrence(pre: string, mid: string, post: string, pattern: string, i: nat)
    requires i + |pattern| <= |mid|
    ensures OccursAt(pre + mid + post, pattern, |pre| + i) <==> OccursAt(mid, pattern, i)
  {
    assert (pre + mid + post)[|pre| + i..|pre| + i + |pattern|] == mid[i..i + |pattern|];
  }

  /** A marker cannot straddle a position holding a newline. */
  lemma NoStraddle(text: string, pattern: string, i: nat, newline: nat)
    requires '\n' !in pattern && newline < |text| && text[newline] == '\n' && i <= newline < i + |pattern|
    ensures !OccursAt(text, pattern, i)
  {
    assert i + |pattern| <= |text| ==> text[i..i + |pattern|][newline - i] == '\n';
  }

  /** The END marker starts after the START marker ends. */
  lemma MarkersDoNotOverlap(text: string)
    requires HasRegion(text)
    ensures FirstIndex(text, GENERATED_START) + |GENERATED_START| <= FirstIndex(text, GENERATED_END)
  {
    FirstIndexFinds(text, GENERATED_START);
    FirstIndexFinds(text, GENERATED_END);
    var start := FirstIndex(text, GENERATED_START);
    var end := FirstIndex(text, GENERATED_END);
    assert text[start..start + |GENERATED_START|] == GENERATED_START;
    assert text[end..end + |GENERATED_END|] == GENERATED_END;
    assert text[start..start + |GENERATED_START|][15] == 'S' && text[end..end + |GENERATED_END|][15] == 'E';
    assert text[end..end + |GENERATED_END|][0] == '<';
    assert forall d :: 0 < d < |GENERATED_START| ==> GENERATED_START[d] != '<';
    forall k | start < k < start + |GENERATED_START| ensures text[k] != '<' {
      assert text[start..start + |GENERATED_START|][k - start] == text[k];
    }
  }

  lemma StartStays(text: string, body: string)
    requires HasRegion(text)
    ensures FirstIndex(Rewritten(text, body).value, GENERATED_START) == FirstIndex(text, GENERATED_START)
  {
    FirstIndexFinds(text, GENERATED_START);
    MarkersDoNotOverlap(text);
    var start := FirstIndex(text, GENERATED_START);
    var text' := Rewritten(text, body).value;
    var keep := start + |GENERATED_START|;
    assert text'[..keep] == text[..keep];
    forall j: nat | j <= start
      ensures OccursAt(text, GENERATED_START, j) <==> OccursAt(text', GENERATED_START, j)
    {
      PrefixOccurrence(text, text', GENERATED_START, j, keep);
    }
    FirstIndexIs(text', GENERATED_START, start);
  }

  lemma NoEndBeforeBody(text: string, body: string, i: nat)
    requires HasRegion(text) && i <= |Before(text)|
    ensures !OccursAt(Rewritten(text, body).value, GENERATED_END, i)
  {
    MarkersDoNotOverlap(text);
    FirstIndexFinds(text, GENERATED_END);
    var text' := Rewritten(text, body).value;
    var keep := |Before(text)|;
    if i + |GENERATED_END| <= keep {
      assert text'[..keep] == text[..keep];
      PrefixOccurrence(text, text', GENERATED_END, i, keep);
    } else {
      NoStraddle(text', GENERATED_END, i, keep);
    }
  }

  lemma EndInBody(text: string, body: string, i: nat)
    requires HasRegion(text) && i <= |body|
    ensures OccursAt(Rewritten(text, body).value, GENERATED_END, |Before(text)| + 1 + i)
            <==> OccursAt(body, GENERATED_END, i)
  {
    var text' := Rewritten(text, body).value;
    var pre := Before(text) + "\n";
    var post := "\n" + Rest(text);
    assert text' == pre + body + post;
    if i + |GENERATED_END| <= |body| {
      InfixOccurrence(pre, body, post, GENERATED_END, i);
    } else {
      NoStraddle(text', GENERATED_END, |pre| + i, |pre| + |body|);
    }
  }

  lemma EndAtRest(text: string, body: string)
    requires HasRegion(text)
    ensures OccursAt(Rewritten(text, body).value, GENERATED_END, |Before(text)| + 1 + |body| + 1)
  {
    FirstIndexFinds(text, GENERATED_END);
    var text' := Rewritten(text, body).value;
    var at := |Before(text)| + 1 + |body| + 1;
    var end := FirstIndex(text, GENERATED_END);
    assert text'[at..] == Rest(text);
    assert text'[at..at + |GENERATED_END|] == text'[at..][..|GENERATED_END|] == Rest(text)[..|GENERATED_END|];
    assert Rest(text)[..|GENERATED_END|] == text[end..end + |GENERATED_END|];
  }

  /** In a rewritten text the END marker is found where the old one went, or inside the body if the
      body has one. */
  lemma EndMoves(text: string, body: string)
    requires HasRegion(text)
    ensures FirstIndex(Rewritten(text, body).value, GENERATED_END) == |Before(text)| + 1 +
            if Contains(body, GENERATED_END) then FirstIndex(body, GENERATED_END) else |body| + 1
  {
    FirstIndexFinds(body, GENERATED_END);
    var text' := Rewritten(text, body).value;
    var base := |Before(text)| + 1;
    var offset := if Contains(body, GENERATED_END) then FirstIndex(body, GENERATED_END) else |body| + 1;
    forall j: nat | j < base + offset
      ensures !OccursAt(text', GENERATED_END, j)
    {
      if j < base { NoEndBeforeBody(text, body, j); } else { EndInBody(text, body, j - base); }
    }
    if Contains(body, GENERATED_END) { EndInBody(text, body, offset); } else { EndAtRest(text, body); }
    FirstIndexIs(text', GENERATED_END, base + offset);
  }

  // ----- Main theorems -----

  predicate FirstAt(text: string, pattern: string, i: nat) {
    OccursAt(text, pattern, i) && forall j: nat :: j < i ==> !OccursAt(text, pattern, j)
  }

  /** The first START marker and all before it, the body on lines of its own, the first END marker and
      all after it; an END marker before the START marker is an error. */
  lemma RewrittenExactly(text: string, body: string, start: nat, end: nat)
    requires FirstAt(text, "<!-- GENERATED:START -->", start) && FirstAt(text, "<!-- GENERATED:END -->", end)
    ensures Rewritten(text, body) ==
            if end < start then Err(MissingMarkers)
            else Ok(text[..start + 24] + "\n" + body + "\n" + text[end..])
  {
    FirstIndexIs(text, GENERATED_START, start);
    FirstIndexIs(text, GENERATED_END, end);
  }

  lemma MissingMarkerIsRefused(text: string, body: string)
    requires !Contains(text, "<!-- GENERATED:START -->") || !Contains(text, "<!-- GENERATED:END -->")
    ensures Rewritten(text, body) == Err(MissingMarkers)
  {
    if !Contains(text, GENERATED_START) { FirstIndexNone(text, GENERATED_START); }
    else { FirstIndexNone(text, GENERATED_END); }
  }

  /** A rewrite keeps the text outside the region verbatim and leaves a region behind. */
  lemma OutsideIsKept(text: string, body: string)
    requires HasRegion(text)
    ensures var r := Rewritten(text, body).value;
            && HasRegion(r)
            && Before(r) == Before(text)
            && Before(text) <= r
            && Rest(text) == r[|r| - |Rest(text)|..]
            && r[|Before(text)|..|r| - |Rest(text)|] == "\n" + body + "\n"
            && (Contains(body, GENERATED_END) || Rest(r) == Rest(text))
  {
    StartStays(text, body);
    EndMoves(text, body);
    MarkersDoNotOverlap(text);
  }

  /** Rewriting again with the same body is the identity exactly when the body has no END marker. */
  lemma RewriteIsIdempotentExactlyWhen(text: string, body: string)
    requires HasRegion(text)
    ensures var r := Rewritten(text, body).value;
            Rewritten(r, body) == Ok(r) <==> !Contains(body, GENERATED_END)
  {
    var r := Rewritten(text, body).value;
    OutsideIsKept(text, body);
    EndMoves(text, body);
    if Contains(body, GENERATED_END) {
      assert |Rest(r)| > |Rest(text)|;
    }
  }

  // ----- generateDocs -----

  /** One generated document: its current text and the body its sources produce. */
  datatype Doc = Doc(text: string, body: string)

  ghost predicate InSync(d: Doc) {
    Rewritten(d.text, d.body) == Ok(d.text)
  }

  ghost function Written(d: Doc): Doc {
    if HasRegion(d.text) then d.(text := Rewritten(d.text, d.body).value) else d
  }

  ghost predicate HasMarkers(d: Doc) {
    HasRegion(d.text)
  }

  /** The first document, from `from` on, whose markers are missing: a run stops there. */
  ghost function Reached(docs: seq<Doc>, from: nat): nat
    requires from <= |docs|
  {
    FirstFailing(docs, HasMarkers, from)
  }

  ghost function FirstFailing(docs: seq<Doc>, holds: Doc -> bool, from: nat): nat
    requires from <= |docs|
    decreases |docs| - from
  {
    if from < |docs| && holds(docs[from]) then FirstFailing(docs, holds, from + 1) else from
  }

  /** `docs` with its first `n` documents rewritten. */
  ghost function WritePrefix(docs: seq<Doc>, n: nat): (r: seq<Doc>)
    requires n <= |docs|
  {
    MapPrefix(docs, Written, n)
  }

  ghost function MapPrefix(docs: seq<Doc>, f: Doc -> Doc, n: nat): (r: seq<Doc>)
    requires n <= |docs|
    ensures |r| == |docs| && r[n..] == docs[n..]
  {
    if n == 0 then docs else MapPrefix(docs, f, n - 1)[n - 1 := f(docs[n - 1])]
  }

  /** The indices, among the first `n`, of the documents out of sync with their sources. */
  ghost function Drifted(docs: seq<Doc>, n: nat): seq<nat>
    requires n <= |docs|
  {
    Failing(docs, InSync, n)
  }

  ghost function Failing(docs: seq<Doc>, holds: Doc -> bool, n: nat): seq<nat>
    requires n <= |docs|
  {
    if n == 0 then [] else Failing(docs, holds, n - 1) + if holds(docs[n - 1]) then [] else [n - 1]
  }

  datatype DocResult = DocResult(next: Doc, changed: bool)

  method Build(doc: Doc) returns (r: Result<DocResult, Error>)
    ensures r.Ok? <==> HasRegion(doc.text)
    ensures r.Ok? ==> r.value.next == Written(doc) && r.value.changed == !InSync(doc)
    ensures r.Ok? && !r.value.changed ==> r.value.next == doc
  {
    var next := RewriteRegion(doc.text, doc.body);
    if next.Err? { return Err(next.error); }
    return Ok(DocResult(doc.(text := next.value), next.value != doc.text));
  }

  /** What one more document adds to a run. */
  lemma NextDoc(docs: seq<Doc>, i: nat)
    requires i < |docs|
    ensures Reached(docs, i) == if HasRegion(docs[i].text) then Reached(docs, i + 1) else i
    ensures WritePrefix(docs, i + 1) == WritePrefix(docs, i)[i := Written(docs[i])]
    ensures WritePrefix(docs, i)[i] == docs[i]
    ensures Drifted(docs, i + 1) == Drifted(docs, i) + if InSync(docs[i]) then [] else [i]
    ensures InSync(docs[i]) && HasRegion(docs[i].text) ==> WritePrefix(docs, i + 1) == WritePrefix(docs, i)
  {
    assert MapPrefix(docs, Written, i)[i] == MapPrefix(docs, Written, i)[i..][0] == docs[i..][0];
  }

  /** The generated documents on disk. */
  class DocTree {
    var docs: seq<Doc>

    constructor (docs: seq<Doc>)
      ensures this.docs == docs
    {
      this.docs := docs;
    }

    method GenerateDocs(writeMode: bool) returns (r: Result<seq<nat>, Error>)
      modifies this
      ensures r.Ok? <==> Reached(old(docs), 0) == |old(docs)|
      ensures Reached(old(docs), 0) <= |old(docs)|
      ensures docs == if writeMode then WritePrefix(old(docs), Reached(old(docs), 0)) else old(docs)
      ensures r.Ok? ==> r.value == if writeMode then [] else Drifted(old(docs), |old(docs)|)
      ensures r.Ok? ==> forall i :: 0 <= i < |docs| ==> Rewritten(old(docs)[i].text, docs[i].body).Ok?
      ensures r.Ok? && writeMode ==> forall i :: 0 <= i < |docs| ==>
        docs[i].body == old(docs)[i].body && Rewritten(old(docs)[i].text, docs[i].body) == Ok(docs[i].text)
      ensures r.Ok? && !writeMode ==> forall i :: 0 <= i < |docs| ==>
        (i in r.value <==> Rewritten(docs[i].text, docs[i].body) != Ok(docs[i].text))
    {
      var drift: seq<nat> := [];
      var i := 0;
      while i < |docs|
        invariant |docs| == |old(docs)| && 0 <= i <= |docs|
        invariant Reached(old(docs), 0) == Reached(old(docs), i)
        invariant docs == if writeMode then WritePrefix(old(docs), i) else old(docs)
        invariant drift == if writeMode then [] else Drifted(old(docs), i)
      {
        assert docs[i] == docs[i..][0] == old(docs)[i..][0] == old(docs)[i];
        NextDoc(old(docs), i);
        var built := Build(docs[i]);
        if built.Err? {
          return Err(built.error);
        }
        if built.value.changed {
          if writeMode {
            docs := docs[i := built.value.next];
          } else {
            drift := drift + [i];
          }
        }
        i := i + 1;
      }
      forall k: nat | k < |docs|
        ensures HasRegion(old(docs)[k].text) && (k in Drifted(old(docs), |docs|) <==> !InSync(old(docs)[k]))
        ensures WritePrefix(old(docs), |docs|)[k] == Written(old(docs)[k])
      {
        NoneFailing(old(docs), HasMarkers, 0, k);
        FailingAt(old(docs), InSync, |docs|, k);
        MapPrefixAt(old(docs), Written, |docs|, k);
      }
      return Ok(drift);
    }
  }

  lemma {:induction false} MapPrefixAt(docs: seq<Doc>, f: Doc -> Doc, n: nat, i: nat)
    requires i < n <= |docs|
    ensures MapPrefix(docs, f, n)[i] == f(docs[i])
  {
    if i < n - 1 { MapPrefixAt(docs, f, n - 1, i); }
  }

  lemma {:induction false} FailingAt(docs: seq<Doc>, holds: Doc -> bool, n: nat, i: nat)
    requires n <= |docs| && i < |docs|
    ensures i in Failing(docs, holds, n) <==> i < n && !holds(docs[i])
  {
    if n > 0 { FailingAt(docs, holds, n - 1, i); }
  }

  lemma {:induction false} FailingIff(docs: seq<Doc>, holds: Doc -> bool, n: nat)
    requires n <= |docs|
    ensures Failing(docs, holds, n) == [] <==> forall i :: 0 <= i < n ==> holds(docs[i])
  {
    if n > 0 { FailingIff(docs, holds, n - 1); }
  }

  lemma {:induction false} NoneFailing(docs: seq<Doc>, holds: Doc -> bool, from: nat, i: nat)
    requires from <= i < |docs| && FirstFailing(docs, holds, from) == |docs|
    ensures holds(docs[i])
    decreases |docs| - from
  {
    if from < i { NoneFailing(docs, holds, from + 1, i); }
  }

  /** A completed write run followed by a check run on unchanged sources reports no drift, exactly
      when no body contains the END marker. */
  lemma WriteThenCheckIsClean(docs: seq<Doc>)
    requires Reached(docs, 0) == |docs|
    ensures Drifted(WritePrefix(docs, |docs|), |docs|) == []
            <==> forall i :: 0 <= i < |docs| ==> !Contains(docs[i].body, GENERATED_END)
  {
    var written := WritePrefix(docs, |docs|);
    FailingIff(written, InSync, |docs|);
    forall i | 0 <= i < |docs|
      ensures InSync(written[i]) <==> !Contains(docs[i].body, GENERATED_END)
    {
      MapPrefixAt(docs, Written, |docs|, i);
      NoneFailing(docs, HasMarkers, 0, i);
      RewriteIsIdempotentExactlyWhen(docs[i].text, docs[i].body);
    }
  }
}
