/** The frontend playground's live preview: how the page document is composed from
    the HTML, CSS and JavaScript buffers, how the body of the user's HTML is cut out,
    and when the preview is refreshed. Writing into the iframe is left out; the
    model keeps the text that would be written. */
module Preview {
  import opened Wrappers
  import opened Text
  import opened Regex

  // ---------------------------------------------------------------------------
  // extractBodyContent

  /** `<body[^>]*>([\s\S]*)<\/body>` (case-insensitive) tried at position `p`: the
      bounds of the captured group. The opening tag ends at the first `>`; the greedy
      group then reaches the last `</body>` after it. */
  function BodyBlockAt(html: string, p: nat): (r: Option<(nat, nat)>)
    requires p <= |html|
    ensures r.Some? ==> p + 5 < r.value.0 <= r.value.1 <= |html|
    ensures r.Some? ==> StartsWithIgnoreCase(html[p..], "<body")
  {
    if !StartsWithIgnoreCase(html[p..], "<body") then None
    else
      match CloseAngle(html, p + 5)
      case None => None
      case Some(q) =>
        match FindLastIgnoreCase(html, "</body>", q, |html|)
        case None => None
        case Some(k) => Some((q, k))
  }

  /** `html.match(...)`: the leftmost position at or after `from` where the body
      pattern matches, and its captured group. */
  function BodySearch(html: string, from: nat): (r: Option<(nat, nat, nat)>)
    requires from <= |html|
    ensures r.Some? ==> from <= r.value.0 <= |html|
    ensures r.Some? ==> BodyBlockAt(html, r.value.0) == Some((r.value.1, r.value.2))
    ensures r.Some? ==> forall p :: from <= p < r.value.0 ==> BodyBlockAt(html, p).None?
    ensures r.None? ==> forall p :: from <= p <= |html| ==> BodyBlockAt(html, p).None?
    decreases |html| - from
  {
    match BodyBlockAt(html, from)
    case Some((q, k)) => Some((from, q, k))
    case None => if from == |html| then None else BodySearch(html, from + 1)
  }

  /** `bodyMatch[1]`, when the body pattern matches. */
  function BodyCapture(html: string): Option<string>
  {
    match BodySearch(html, 0)
    case Some((_, q, k)) => Some(html[q..k])
    case None => None
  }

  /** The fallback: drop the first DOCTYPE, every `<html…>`/`</html>`, the first
      `<head…>…</head>` (shortest), then every `<body…>`/`</body>`. It only ever
      deletes, and text without a `<` has nothing to delete. */
  function StripDocumentTags(html: string): (r: string)
    ensures |r| <= |html|
    ensures forall c :: c in r ==> c in html
    ensures '<' !in html ==> r == html
    ensures IsSubsequence(r, html)
  {
    var noDoctype := ReplaceFirst(Doctype, html, "");
    var noHtml := ReplaceAll(HtmlTag, noDoctype);
    var noHead := ReplaceFirst(HeadBlock, noHtml, "");
    RemovalKeepsCharacters(HtmlTag, noDoctype);
    RemovalKeepsCharacters(BodyTag, noHead);
    NothingToStrip(html);
    FirstRemovalIsSubsequence(Doctype, html);
    FirstRemovalIsSubsequence(HeadBlock, noHtml);
    RemovalIsSubsequence(HtmlTag, noDoctype);
    RemovalIsSubsequence(BodyTag, noHead);
    SubsequenceTransitive(noHtml, noDoctype, html);
    SubsequenceTransitive(noHead, noHtml, html);
    SubsequenceTransitive(ReplaceAll(BodyTag, noHead), noHead, html);
    ReplaceAll(BodyTag, noHead)
  }

  /** Each of the four removals leaves text without a `<` alone. */
  lemma NothingToStrip(html: string)
    ensures '<' !in html ==> ReplaceFirst(Doctype, html, "") == html
    ensures '<' !in html ==> ReplaceAll(HtmlTag, html) == html
    ensures '<' !in html ==> ReplaceFirst(HeadBlock, html, "") == html
    ensures '<' !in html ==> ReplaceAll(BodyTag, html) == html
  {
    if '<' !in html {
      NoAnchorNoMatch(Doctype, html);
      NoAnchorNoMatch(HtmlTag, html);
      ReplaceAllNoMatch(HtmlTag, html);
      NoAnchorNoMatch(HeadBlock, html);
      NoAnchorNoMatch(BodyTag, html);
      ReplaceAllNoMatch(BodyTag, html);
    }
  }

  /** The captured group is a piece of the HTML. */
  lemma CaptureIsSubsequence(html: string)
    ensures BodyCapture(html).Some? ==> IsSubsequence(BodyCapture(html).value, html)
  {
    match BodySearch(html, 0)
    case Some((_, q, k)) => SliceIsSubsequence(html, q, k);
    case None =>
  }

  /** `extractBodyContent`: the captured body when it is non-empty, else the fallback. */
  function ExtractBodyContent(html: string): (r: string)
    ensures |r| <= |html|
    ensures forall c :: c in r ==> c in html
    ensures IsSubsequence(r, html)
  {
    CaptureIsSubsequence(html);
    match BodyCapture(html)
    case Some(body) => if body != "" then body else StripDocumentTags(html)
    case None => StripDocumentTags(html)
  }

  /** The capture described directly: after the first `>` that follows the first
      `<body` (any case), up to the last `</body>` after that. */
  function ReferenceBody(html: string): Option<string>
  {
    match FindIgnoreCase(html, "<body", 0)
    case None => None
    case Some(p) =>
      match CloseAngle(html, p + 5)
      case None => None
      case Some(q) =>
        match FindLastIgnoreCase(html, "</body>", q, |html|)
        case None => None
        case Some(k) => Some(html[q..k])
  }

  /** If the body pattern matches at some `<body`, it also matches at any earlier
      `<body`: the earlier tag closes no later, and the same `</body>` follows it. */
  lemma EarlierOpeningMatches(html: string, p0: nat, p: nat)
    requires p0 < p <= |html|
    requires StartsWithIgnoreCase(html[p0..], "<body")
    requires BodyBlockAt(html, p).Some?
    ensures BodyBlockAt(html, p0).Some?
  {
    var (q, k) := BodyBlockAt(html, p).value;
    var q' := CloseAngle(html, p + 5).value;
    assert q' == q;
    assert html[q - 1] == '>';
    var q0 := CloseAngle(html, p0 + 5);
    assert q0.Some?;
    assert q0.value <= q;
    assert StartsWithIgnoreCase(html[k..], "</body>");
    assert FindLastIgnoreCase(html, "</body>", q0.value, |html|).Some?;
  }

  /** The leftmost match of the body pattern starts at the first `<body`, so the
      captured group is exactly the reference description. */
  lemma BodyCaptureIsReference(html: string)
    ensures BodyCapture(html) == ReferenceBody(html)
  {
    var first := FindIgnoreCase(html, "<body", 0);
    match BodySearch(html, 0)
    case Some((p, q, k)) =>
      assert StartsWithIgnoreCase(html[p..], "<body");
      assert first.Some? && first.value <= p;
      if first.value < p {
        EarlierOpeningMatches(html, first.value, p);
        assert false;
      }
    case None =>
      if first.Some? {
        assert BodyBlockAt(html, first.value).None?;
      }
  }

  /** When a non-empty body is captured, the result is the text between the first
      opening tag and the last `</body>`. */
  lemma ExtractWithBody(html: string)
    requires ReferenceBody(html).Some? && ReferenceBody(html).value != ""
    ensures ExtractBodyContent(html) == ReferenceBody(html).value
  {
    BodyCaptureIsReference(html);
  }

  /** Without any `<` there is no tag to remove: the text comes back unchanged. */
  lemma ExtractWithoutTags(html: string)
    requires '<' !in html
    ensures ExtractBodyContent(html) == html
  {
    BodyCaptureIsReference(html);
    forall k | 0 <= k <= |html| ensures !StartsWithIgnoreCase(html[k..], "<body") {
      if k < |html| {
        assert html[k..][0] == html[k];
      }
    }
  }

  // ---------------------------------------------------------------------------
  // The composed document

  const DocumentOpen: string :=
    "\n      <!DOCTYPE html>\n      <html>\n        <head>\n          " + "<style>"
  const StyleToBody: string :=
    "</style>" + "\n        </head>\n        <body>\n          "
  const BodyToScript: string := "\n          " + "<script>"
  const DocumentClose: string := "</script>" + "\n        </body>\n      </html>\n    "

  /** Each section of the document is opened and closed by its tag. */
  lemma SectionTags()
    ensures EndsWith(DocumentOpen, "<style>") && StartsWith(StyleToBody, "</style>")
    ensures EndsWith(BodyToScript, "<script>") && StartsWith(DocumentClose, "</script>")
  {
  }

  /** Where each of seven concatenated pieces sits in the whole. */
  lemma Layout(p0: string, x: string, p1: string, y: string, p2: string, z: string, p3: string)
    ensures var r := p0 + x + p1 + y + p2 + z + p3;
      var a := |p0|;
      var b := a + |x| + |p1|;
      var c := b + |y| + |p2|;
      && |r| == c + |z| + |p3|
      && r[..a] == p0 && r[a..a + |x|] == x && r[a + |x|..b] == p1
      && r[b..b + |y|] == y && r[b + |y|..c] == p2
      && r[c..c + |z|] == z && r[c + |z|..] == p3
  {
    var r := p0 + x + p1 + y + p2 + z + p3;
    assert r == p0 + (x + (p1 + (y + (p2 + (z + p3)))));
  }

  /** The `fullHtml` text written into the preview frame: the CSS inside `<style>`,
      then the extracted body, then the JavaScript inside `<script>`, each section
      found at a fixed offset after the ones before it. */
  function Document(html: string, css: string, js: string): (r: string)
    ensures var body := ExtractBodyContent(html);
      var a := |DocumentOpen|;
      var b := a + |css| + |StyleToBody|;
      var c := b + |body| + |BodyToScript|;
      && |r| == c + |js| + |DocumentClose|
      && EndsWith(r[..a], "<style>") && r[a..a + |css|] == css && StartsWith(r[a + |css|..b], "</style>")
      && r[b..b + |body|] == body
      && EndsWith(r[b + |body|..c], "<script>") && r[c..c + |js|] == js && StartsWith(r[c + |js|..], "</script>")
  {
    var body := ExtractBodyContent(html);
    Layout(DocumentOpen, css, StyleToBody, body, BodyToScript, js, DocumentClose);
    SectionTags();
    DocumentOpen + css + StyleToBody + body + BodyToScript + js + DocumentClose
  }

  // ---------------------------------------------------------------------------
  // Refreshing

  /** The preview component's state: the auto-preview checkbox, the iframe key, and
      the last document written. */
  datatype PreviewState = PreviewState(autoPreview: bool, key: nat, written: Option<string>)

  const InitialPreview: PreviewState := PreviewState(false, 0, None)

  /** `updatePreview`: without a frame document nothing happens; otherwise the
      document is written and the key goes up by one. */
  function Refresh(st: PreviewState, html: string, css: string, js: string, frameReady: bool): (r: PreviewState)
    ensures frameReady ==> r.key == st.key + 1 && r.written == Some(Document(html, css, js))
    ensures !frameReady ==> r == st
    ensures r.autoPreview == st.autoPreview
  {
    if frameReady then st.(key := st.key + 1, written := Some(Document(html, css, js))) else st
  }

  /** The buffers the component was last rendered with. */
  datatype Inputs = Inputs(html: string, css: string, js: string)

  /** One thing that can happen to the preview. */
  datatype PreviewEvent =
    | ClickPreview(frameReady: bool)
    | InputsChanged(inputs: Inputs, frameReady: bool)
    | ToggleAuto(frameReady: bool)

  /** The effect on `[htmlCode, cssCode, jsCode, autoPreview]`: it refreshes only
      when a dependency changed and auto-preview is on. */
  function AfterDependencies(before: PreviewState, beforeInputs: Inputs,
                             st: PreviewState, inputs: Inputs, frameReady: bool): PreviewState
  {
    var changed := inputs != beforeInputs || st.autoPreview != before.autoPreview;
    if changed && st.autoPreview then Refresh(st, inputs.html, inputs.css, inputs.js, frameReady)
    else st
  }

  /** Applies one event to the state and the current inputs. */
  function Step(st: PreviewState, inputs: Inputs, e: PreviewEvent): (r: (PreviewState, Inputs))
    ensures r.0.key == st.key || r.0.key == st.key + 1
    ensures e.InputsChanged? && !st.autoPreview ==> r.0 == st
    ensures e.ToggleAuto? ==> r.0.autoPreview == !st.autoPreview
    ensures !e.ToggleAuto? ==> r.0.autoPreview == st.autoPreview
  {
    match e
    case ClickPreview(ready) => (Refresh(st, inputs.html, inputs.css, inputs.js, ready), inputs)
    case InputsChanged(next, ready) => (AfterDependencies(st, inputs, st, next, ready), next)
    case ToggleAuto(ready) =>
      var toggled := st.(autoPreview := !st.autoPreview);
      (AfterDependencies(st, inputs, toggled, inputs, ready), inputs)
  }

  /** Whether an event writes the frame from the given state. */
  predicate Writes(st: PreviewState, inputs: Inputs, e: PreviewEvent)
  {
    match e
    case ClickPreview(ready) => ready
    case InputsChanged(next, ready) => ready && st.autoPreview && next != inputs
    case ToggleAuto(ready) => ready && !st.autoPreview
  }

  /** Runs a sequence of events. */
  function Run(st: PreviewState, inputs: Inputs, events: seq<PreviewEvent>): (PreviewState, Inputs)
    decreases |events|
  {
    if |events| == 0 then (st, inputs)
    else
      var (st', inputs') := Step(st, inputs, events[0]);
      Run(st', inputs', events[1..])
  }

  /** Number of events in a run that write the frame. */
  function WriteCount(st: PreviewState, inputs: Inputs, events: seq<PreviewEvent>): nat
    decreases |events|
  {
    if |events| == 0 then 0
    else
      var (st', inputs') := Step(st, inputs, events[0]);
      (if Writes(st, inputs, events[0]) then 1 else 0) + WriteCount(st', inputs', events[1..])
  }

  /** An event raises the key exactly when it writes the frame. */
  lemma StepKey(st: PreviewState, inputs: Inputs, e: PreviewEvent)
    ensures Step(st, inputs, e).0.key == st.key + (if Writes(st, inputs, e) then 1 else 0)
  {
  }

  /** Over any run the key grows by exactly the number of writes. */
  lemma {:induction false} KeyCountsWrites(st: PreviewState, inputs: Inputs, events: seq<PreviewEvent>)
    ensures Run(st, inputs, events).0.key == st.key + WriteCount(st, inputs, events)
    decreases |events|
  {
    if |events| > 0 {
      StepKey(st, inputs, events[0]);
      var (st', inputs') := Step(st, inputs, events[0]);
      KeyCountsWrites(st', inputs', events[1..]);
    }
  }

  /** While auto-preview stays off, editing never refreshes the preview. */
  lemma {:induction false} EditsWithoutAutoPreview(st: PreviewState, inputs: Inputs, events: seq<PreviewEvent>)
    requires !st.autoPreview
    requires forall k :: 0 <= k < |events| ==> events[k].InputsChanged?
    ensures Run(st, inputs, events).0 == st
    decreases |events|
  {
    if |events| > 0 {
      var (st', inputs') := Step(st, inputs, events[0]);
      EditsWithoutAutoPreview(st', inputs', events[1..]);
    }
  }
}
