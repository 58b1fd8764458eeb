/**
 * The decisions the profile page makes about a parsed user record: the
 * background and text colours, whether the background image and the profile
 * picture appear, the title, and which labelled lines the card shows. The
 * CSS and HTML around these decisions is fixed text and is not modelled.
 */
module Profile {
  import opened Wrappers
  import opened JsValue
  import Contrast

  const DefaultBackground := "#f5f5f5"

  /** One labelled line of the profile card, such as `Email: <value>`. */
  datatype Line = Line(caption: string, value: Json)

  /** What the rendered page depends on. */
  datatype ProfileView = ProfileView(
    background: string,            // the `background-color` of the page
    textColor: string,             // the page's text colour
    backgroundImage: Option<Json>, // present exactly when the background-image clause is emitted
    profileImage: Option<Json>,    // present exactly when the `<img>` is emitted
    title: Json,                   // the `<title>`, the `<h1>` and the picture's alt text
    lines: seq<Line>)              // the labelled lines, in card order

  /** Why rendering throws; the route answers each with the parse-error response. */
  datatype RenderError =
    | NullRecord                       // `null.customization`
    | BackgroundNotString(value: Json) // `.replace` on a truthy non-string colour
    | NotPrintable(value: Json)        // a template literal converting `value` to text

  const LineLabels := ["Username", "Email", "Bio", "Location"]
  const LineKeys := ["username", "email", "bio", "location"]

  /** Position of a label in the card's fixed order; 4 for any other label. */
  function Rank(caption: string): (k: nat)
    ensures k <= 4
    ensures k < 4 ==> LineLabels[k] == caption
  {
    if caption == "Username" then 0
    else if caption == "Email" then 1
    else if caption == "Bio" then 2
    else if caption == "Location" then 3
    else 4
  }

  /** `userData.customization || {}`. */
  function Customization(record: Json): (c: Json)
    requires record != JNull
    ensures c != JNull
  {
    Or(Get(record, "customization"), JObj(map[]))
  }

  /**
   * `customization.backgroundColor || '#f5f5f5'`, which must be a string for
   * the contrast chooser. A colour that gets through is never empty, so the
   * chooser's "no colour" branch is never taken from the profile page.
   */
  function Background(customization: Json): (r: Result<string, RenderError>)
    requires customization != JNull
    ensures var colour := Get(customization, "backgroundColor");
      r.Failure? <==> Truthy(colour) && !colour.value.JStr?
    ensures r.Success? ==> r.value != ""
  {
    var colour := Get(customization, "backgroundColor");
    if !Truthy(colour) then Success(DefaultBackground)
    else if colour.value.JStr? then Success(colour.value.s)
    else Failure(BackgroundNotString(colour.value))
  }

  /** The line for field `k` of the card: present only when the field is truthy. */
  function LabelledLine(record: Json, k: nat): (l: seq<Line>)
    requires record != JNull && k < 4
    ensures |l| <= 1 && (|l| == 1 <==> Truthy(Get(record, LineKeys[k])))
  {
    var v := Get(record, LineKeys[k]);
    if Truthy(v) then [Line(LineLabels[k], v.value)] else []
  }

  /** The four conditional lines, in the card's order. */
  function Lines(record: Json): (ls: seq<Line>)
    requires record != JNull
    ensures |ls| <= 4
  {
    LabelledLine(record, 0) + LabelledLine(record, 1) + LabelledLine(record, 2) + LabelledLine(record, 3)
  }

  /** `x || ''` followed by a truthiness test: present exactly when `x` is truthy. */
  function IfTruthy(p: Option<Json>): Option<Json> {
    if Truthy(p) then p else None
  }

  /** The value a conditional fragment interpolates: nothing when it is left out. */
  function Shown(p: Option<Json>): seq<Json> {
    if p.Some? then [p.value] else []
  }

  function LineValues(lines: seq<Line>): seq<Json> {
    seq(|lines|, i requires 0 <= i < |lines| => lines[i].value)
  }

  /**
   * The parsed values the page converts to text, in the order the source
   * converts them: the background image, the title, the picture, the lines.
   */
  function Interpolated(v: ProfileView): seq<Json> {
    Shown(v.backgroundImage) + [v.title] + Shown(v.profileImage) + LineValues(v.lines)
  }

  /** The first position at or after `from` whose value cannot be converted to text. */
  function FirstUnprintable(vs: seq<Json>, from: nat): (r: Option<nat>)
    requires from <= |vs|
    ensures r.Some? ==> from <= r.value < |vs| && Unprintable(vs[r.value])
    ensures r.Some? ==> forall j :: from <= j < r.value ==> !Unprintable(vs[j])
    ensures r.None? ==> forall j :: from <= j < |vs| ==> !Unprintable(vs[j])
    decreases |vs| - from
  {
    if from == |vs| then None
    else if Unprintable(vs[from]) then Some(from)
    else FirstUnprintable(vs, from + 1)
  }

  /** The view of `record` for route parameter `username`, or the error that aborts rendering. */
  function Render(username: string, record: Json): (r: Result<ProfileView, RenderError>)
    ensures r.Success? ==> r.value.textColor == Contrast.ContrastColor(Some(r.value.background))
    ensures r.Success? ==> r.value.textColor == Contrast.Black || r.value.textColor == Contrast.White
    ensures r.Success? ==> forall i :: 0 <= i < |Interpolated(r.value)| ==> !Unprintable(Interpolated(r.value)[i])
  {
    if record == JNull then Failure(NullRecord)
    else
      var c := Customization(record);
      match Background(c)
      case Failure(e) => Failure(e)
      case Success(background) =>
        var view := ProfileView(
          background,
          Contrast.ContrastColor(Some(background)),
          IfTruthy(Get(c, "backgroundImage")),
          IfTruthy(Get(c, "profileImage")),
          Or(Get(record, "name"), JStr(username)),
          Lines(record));
        var shown := Interpolated(view);
        match FirstUnprintable(shown, 0)
        case Some(i) => Failure(NotPrintable(shown[i]))
        case None => Success(view)
  }

  /** A property read whose value would throw once the page interpolates it. */
  predicate ThrowsWhenShown(p: Option<Json>) {
    p.Some? && Unprintable(p.value)
  }

  predicate AnyUnprintable(vs: seq<Json>) {
    exists i :: 0 <= i < |vs| && Unprintable(vs[i])
  }

  lemma AnyUnprintableConcat(a: seq<Json>, b: seq<Json>)
    ensures AnyUnprintable(a + b) <==> AnyUnprintable(a) || AnyUnprintable(b)
  {
    if AnyUnprintable(a + b) {
      var i :| 0 <= i < |a + b| && Unprintable((a + b)[i]);
      if i >= |a| {
        assert b[i - |a|] == (a + b)[i];
      }
    }
    if AnyUnprintable(a) {
      var i :| 0 <= i < |a| && Unprintable(a[i]);
      assert (a + b)[i] == a[i];
    }
    if AnyUnprintable(b) {
      var i :| 0 <= i < |b| && Unprintable(b[i]);
      assert (a + b)[|a| + i] == b[i];
    }
  }

  /** A value that cannot be converted to text is an object or an array, so it is truthy. */
  lemma UnprintableIsTruthy(v: Json)
    requires Unprintable(v)
    ensures IsTruthy(v)
  {
  }

  /** A fragment guarded by its own truthiness throws exactly when its value does. */
  lemma GuardedFragmentThrows(p: Option<Json>)
    ensures AnyUnprintable(Shown(IfTruthy(p))) <==> ThrowsWhenShown(p)
  {
    if ThrowsWhenShown(p) {
      UnprintableIsTruthy(p.value);
      assert Shown(IfTruthy(p))[0] == p.value;
    }
  }

  /** The title throws exactly when a truthy `name` does; the username fallback is a string. */
  lemma TitleThrows(record: Json, username: string)
    requires record != JNull
    ensures Unprintable(Or(Get(record, "name"), JStr(username))) <==> ThrowsWhenShown(Get(record, "name"))
  {
    if ThrowsWhenShown(Get(record, "name")) {
      UnprintableIsTruthy(Get(record, "name").value);
    }
  }

  lemma LineValuesConcat(a: seq<Line>, b: seq<Line>)
    ensures LineValues(a + b) == LineValues(a) + LineValues(b)
  {
  }

  /** The labelled lines throw exactly when one of the four fields does. */
  lemma LinesThrow(record: Json)
    requires record != JNull
    ensures AnyUnprintable(LineValues(Lines(record))) <==>
      ThrowsWhenShown(Get(record, "username")) || ThrowsWhenShown(Get(record, "email"))
      || ThrowsWhenShown(Get(record, "bio")) || ThrowsWhenShown(Get(record, "location"))
  {
    var l0, l1, l2, l3 := LabelledLine(record, 0), LabelledLine(record, 1), LabelledLine(record, 2), LabelledLine(record, 3);
    LineValuesConcat(l0 + l1 + l2, l3);
    LineValuesConcat(l0 + l1, l2);
    LineValuesConcat(l0, l1);
    AnyUnprintableConcat(LineValues(l0) + LineValues(l1) + LineValues(l2), LineValues(l3));
    AnyUnprintableConcat(LineValues(l0) + LineValues(l1), LineValues(l2));
    AnyUnprintableConcat(LineValues(l0), LineValues(l1));
    forall k | 0 <= k < 4
      ensures AnyUnprintable(LineValues(LabelledLine(record, k))) <==> ThrowsWhenShown(Get(record, LineKeys[k]))
    {
      var v := Get(record, LineKeys[k]);
      if ThrowsWhenShown(v) {
        UnprintableIsTruthy(v.value);
        assert LineValues(LabelledLine(record, k))[0] == v.value;
      }
    }
  }

  /** The values a rendered view interpolates throw exactly when one of the fields they come from does. */
  lemma InterpolatedThrows(username: string, record: Json, v: ProfileView)
    requires record != JNull
    requires v.backgroundImage == IfTruthy(Get(Customization(record), "backgroundImage"))
    requires v.profileImage == IfTruthy(Get(Customization(record), "profileImage"))
    requires v.title == Or(Get(record, "name"), JStr(username)) && v.lines == Lines(record)
    ensures AnyUnprintable(Interpolated(v)) <==>
      ThrowsWhenShown(Get(Customization(record), "backgroundImage"))
      || ThrowsWhenShown(Get(record, "name"))
      || ThrowsWhenShown(Get(Customization(record), "profileImage"))
      || ThrowsWhenShown(Get(record, "username")) || ThrowsWhenShown(Get(record, "email"))
      || ThrowsWhenShown(Get(record, "bio")) || ThrowsWhenShown(Get(record, "location"))
  {
    var a, t, p, l := Shown(v.backgroundImage), [v.title], Shown(v.profileImage), LineValues(v.lines);
    AnyUnprintableConcat(a + t + p, l);
    AnyUnprintableConcat(a + t, p);
    AnyUnprintableConcat(a, t);
    GuardedFragmentThrows(Get(Customization(record), "backgroundImage"));
    GuardedFragmentThrows(Get(Customization(record), "profileImage"));
    TitleThrows(record, username);
    assert AnyUnprintable(t) <==> Unprintable(v.title) by {
      assert t[0] == v.title;
    }
    LinesThrow(record);
  }

  /**
   * Rendering fails exactly for a `null` record, for a truthy colour that is
   * not a string, and for a shown value that cannot be converted to text:
   * the background image, a truthy `name`, the picture, or one of the four
   * labelled fields. Every other parsed value renders.
   */
  lemma RenderFailsExactly(username: string, record: Json)
    ensures Render(username, record).Failure? <==>
      record == JNull
      || (var c := Customization(record);
          var colour := Get(c, "backgroundColor");
          (Truthy(colour) && !colour.value.JStr?)
          || ThrowsWhenShown(Get(c, "backgroundImage"))
          || ThrowsWhenShown(Get(record, "name"))
          || ThrowsWhenShown(Get(c, "profileImage"))
          || ThrowsWhenShown(Get(record, "username")) || ThrowsWhenShown(Get(record, "email"))
          || ThrowsWhenShown(Get(record, "bio")) || ThrowsWhenShown(Get(record, "location")))
  {
    if record != JNull {
      var c := Customization(record);
      if Background(c).Success? {
        var view := ProfileView(
          Background(c).value,
          Contrast.ContrastColor(Some(Background(c).value)),
          IfTruthy(Get(c, "backgroundImage")),
          IfTruthy(Get(c, "profileImage")),
          Or(Get(record, "name"), JStr(username)),
          Lines(record));
        InterpolatedThrows(username, record, view);
        var shown := Interpolated(view);
        assert Render(username, record).Failure? <==> FirstUnprintable(shown, 0).Some?;
        assert FirstUnprintable(shown, 0).Some? <==> AnyUnprintable(shown);
      }
    }
  }

  /**
   * The page background is the record's colour, or `#f5f5f5` when that is
   * falsy; with the default the text is black.
   */
  lemma BackgroundDecision(username: string, record: Json)
    requires Render(username, record).Success?
    ensures record != JNull
    ensures var colour := Get(Customization(record), "backgroundColor");
      Render(username, record).value.background == if Truthy(colour) then colour.value.s else DefaultBackground
    ensures !Truthy(Get(Customization(record), "backgroundColor")) ==>
      Render(username, record).value.textColor == Contrast.Black
  {
    var b := RenderedBackground(username, record);
    Contrast.DefaultBackgroundColour();
  }

  /** A rendered page's background is what `Background` chose, and its text colour follows from it. */
  lemma RenderedBackground(username: string, record: Json) returns (b: string)
    requires Render(username, record).Success?
    ensures record != JNull && Background(Customization(record)) == Success(b)
    ensures Render(username, record).value.background == b
    ensures Render(username, record).value.textColor == Contrast.ContrastColor(Some(b))
  {
    b := Background(Customization(record)).value;
  }

  /**
   * The background-image clause is appended exactly when the customization's
   * `backgroundImage` is truthy, and carries that value.
   */
  lemma BackgroundImageDecision(username: string, record: Json)
    requires Render(username, record).Success?
    ensures record != JNull
    ensures var v := Render(username, record).value;
      var image := Get(Customization(record), "backgroundImage");
      (v.backgroundImage.Some? <==> Truthy(image)) && (v.backgroundImage.Some? ==> v.backgroundImage == image)
  {
  }

  /** The `<img>` is emitted exactly when the customization's `profileImage` is truthy, with that source. */
  lemma ProfileImageDecision(username: string, record: Json)
    requires Render(username, record).Success?
    ensures record != JNull
    ensures var v := Render(username, record).value;
      var photo := Get(Customization(record), "profileImage");
      (v.profileImage.Some? <==> Truthy(photo)) && (v.profileImage.Some? ==> v.profileImage == photo)
  {
  }

  /**
   * The title is the record's `name` when truthy, otherwise the route's
   * username; since a route parameter is never empty, the title is always
   * truthy (a truthy `name` such as `[]` may still print as empty text).
   */
  lemma TitleFallback(username: string, record: Json)
    requires Render(username, record).Success?
    ensures record != JNull
    ensures var name := Get(record, "name");
      Render(username, record).value.title == if Truthy(name) then name.value else JStr(username)
    ensures username != "" ==> IsTruthy(Render(username, record).value.title)
  {
  }

  /** A present line `k` carries label `k` and the value of field `k`. */
  lemma LabelledLineShape(record: Json, k: nat)
    requires record != JNull && k < 4
    ensures var l := LabelledLine(record, k);
      |l| == 1 ==> Rank(l[0].caption) == k && l[0].value == Get(record, LineKeys[k]).value
  {
  }

  /** Each of the card's labelled lines shows a truthy field under that field's label, with the field's value. */
  lemma LinesShowTruthyFields(record: Json)
    requires record != JNull
    ensures var ls := Lines(record);
      forall i :: 0 <= i < |ls| ==>
        var k := Rank(ls[i].caption);
        k < 4 && Truthy(Get(record, LineKeys[k])) && ls[i].value == Get(record, LineKeys[k]).value
  {
    LabelledLineShape(record, 0);
    LabelledLineShape(record, 1);
    LabelledLineShape(record, 2);
    LabelledLineShape(record, 3);
  }

  /** The labelled lines follow the card's fixed order: Username, Email, Bio, Location. */
  lemma LinesFollowCardOrder(record: Json)
    requires record != JNull
    ensures var ls := Lines(record);
      forall i, j :: 0 <= i < j < |ls| ==> Rank(ls[i].caption) < Rank(ls[j].caption)
  {
    LabelledLineShape(record, 0);
    LabelledLineShape(record, 1);
    LabelledLineShape(record, 2);
    LabelledLineShape(record, 3);
  }

  /** Every truthy field among username, email, bio and location has its line. */
  lemma LinesShowEveryTruthyField(record: Json)
    requires record != JNull
    ensures var ls := Lines(record);
      forall k :: 0 <= k < 4 && Truthy(Get(record, LineKeys[k])) ==>
        exists i :: 0 <= i < |ls| && Rank(ls[i].caption) == k
  {
    var ls := Lines(record);
    var a, b, c := LabelledLine(record, 0), LabelledLine(record, 1), LabelledLine(record, 2);
    forall k | 0 <= k < 4 && Truthy(Get(record, LineKeys[k]))
      ensures exists i :: 0 <= i < |ls| && Rank(ls[i].caption) == k
    {
      LabelledLineShape(record, k);
      var i := if k == 0 then 0 else if k == 1 then |a| else if k == 2 then |a| + |b| else |a| + |b| + |c|;
      assert ls[i] == LabelledLine(record, k)[0];
    }
  }
}
