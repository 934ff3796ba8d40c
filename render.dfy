/**
  The render pass: the per-row presentation decisions (delay colour, sign,
  blink, cancelled badge), the empty-list placeholder, and the loop that
  assembles the rendered view. The markup is kept as an abstract record: every
  text that the card interpolates is held escaped; the colour values are held raw,
  as the card writes them into inline styles unescaped.
*/
module Render {
  import opened Wrappers
  import opened CardConfig
  import opened HtmlEscape
  import opened Rows

  const Placeholder := "No departures available"

  /** The title used when none is configured. (Texts that are escaped are functions rather than constants,
      so that the verifier does not evaluate their escaping eagerly.) */
  function DefaultTitle(): string { "Next departures" }

  /** The badge text of a cancelled departure. */
  function CancelledText(): string { " (cancelled)" }
  const LateColor := "#ff0000"
  const OnTimeColor := "#00aa00"
  /** A delay strictly above this many minutes is shown as late. */
  const LateThreshold := 2

  /** The delay annotation `(+N min)`: its colour, its sign prefix and the minutes. */
  datatype DelayBadge = DelayBadge(color: string, sign: string, minutes: int)

  /** One rendered row. Text fields hold escaped text; `until` is `None` when the row has no until suffix. */
  datatype RowView = RowView(
    time: string,
    chipBackground: string,
    chipColor: string,
    labelText: string,
    dest: string,
    cancelledBadge: string,
    platform: string,
    untilColor: Option<string>,
    blink: bool,
    until: Option<string>,
    delay: Option<DelayBadge>)

  datatype Body = Empty(message: string) | List(rows: seq<RowView>)

  /** The card's whole rendered output: escaped title and body. */
  datatype View = View(title: string, body: Body)

  /** The delay colour: none without a delay, red above two minutes, green otherwise. */
  function DelayColor(delay: Option<int>): (c: Option<string>)
    ensures c.None? <==> delay.None?
    ensures delay.Some? ==> c == Some(if delay.value > LateThreshold then LateColor else OnTimeColor)
  {
    match delay
    case None => None
    case Some(m) => Some(if m > LateThreshold then LateColor else OnTimeColor)
  }

  /** The sign prefix of a delay: `+` for a positive delay, nothing otherwise (a negative number carries its own `-`). */
  function DelaySign(minutes: int): (s: string)
    ensures s == "+" <==> minutes > 0
    ensures s == "" <==> minutes <= 0
  {
    if minutes > 0 then "+" else ""
  }

  /** `parseInt(c)` of one character is a number only for an ASCII decimal digit. */
  predicate IsDigit(c: char) {
    '0' <= c <= '9'
  }

  /** The until text blinks when it is non-empty and does not start with a digit (a word instead of a countdown). */
  function Blink(until: string): (b: bool)
    ensures b <==> |until| > 0 && !IsDigit(until[0])
  {
    until != "" && !IsDigit(until[0])
  }

  /** The badge after the destination of a cancelled departure. */
  function Badge(cancelled: bool): (t: string)
    ensures t != "" <==> cancelled
  {
    if cancelled then CancelledText() else ""
  }

  /** The delay annotation of a row, present exactly when the row has a delay. */
  function DelayBadgeOf(delay: Option<int>): (b: Option<DelayBadge>)
    ensures b.Some? <==> delay.Some?
    ensures delay.Some? ==> b.value.minutes == delay.value && Some(b.value.color) == DelayColor(delay)
    ensures delay.Some? ==> b.value.sign == DelaySign(delay.value) && (b.value.sign == "+" <==> delay.value > 0)
  {
    match delay
    case None => None
    case Some(m) => Some(DelayBadge(DelayColor(delay).value, DelaySign(m), m))
  }

  /** The rendered form of one derived row: every text field holds the row's text escaped, the colours raw. */
  function RowViewOf(row: Row): (rv: RowView)
    ensures RowViewSafe(rv)
    ensures Unescape(rv.time) == row.time && Unescape(rv.labelText) == row.labelText
    ensures Unescape(rv.dest) == row.dest && Unescape(rv.platform) == row.platform
    ensures Unescape(rv.cancelledBadge) == Badge(row.cancelled) && (rv.cancelledBadge != "" <==> row.cancelled)
    ensures rv.until.Some? ==> Unescape(rv.until.value) == row.until
    ensures rv.blink == Blink(row.until)
    ensures rv.chipBackground == row.routeColor && rv.chipColor == row.routeTextColor
    ensures rv.until.Some? <==> row.until != ""
    ensures rv.delay == DelayBadgeOf(row.delay) && rv.untilColor == DelayColor(row.delay)
  {
    EscapeTextIsSafe(row.time);
    EscapeTextIsSafe(row.labelText);
    EscapeTextIsSafe(row.dest);
    EscapeTextIsSafe(Badge(row.cancelled));
    EscapeTextIsSafe(row.platform);
    EscapeTextIsSafe(row.until);
    UnescapeEscapeText(row.time);
    UnescapeEscapeText(row.labelText);
    UnescapeEscapeText(row.dest);
    UnescapeEscapeText(Badge(row.cancelled));
    UnescapeEscapeText(row.platform);
    UnescapeEscapeText(row.until);
    RowView(
      time := EscapeText(row.time),
      chipBackground := row.routeColor,
      chipColor := row.routeTextColor,
      labelText := EscapeText(row.labelText),
      dest := EscapeText(row.dest),
      cancelledBadge := EscapeText(Badge(row.cancelled)),
      platform := EscapeText(row.platform),
      untilColor := DelayColor(row.delay),
      blink := Blink(row.until),
      until := if row.until != "" then Some(EscapeText(row.until)) else None,
      delay := DelayBadgeOf(row.delay))
  }

  /** The title shown: the configured one if non-empty, else the default. */
  function TitleText(title: Option<string>): (t: string)
    ensures !Truthy(title) ==> t == DefaultTitle()
    ensures Truthy(title) ==> t == title.value
    ensures t != ""
  {
    if Truthy(title) then title.value else DefaultTitle()
  }

  /** The view of one render pass: the placeholder when there are no rows, else one rendered row per row, in order. */
  function RenderView(title: Option<string>, rows: seq<Row>): (v: View)
    ensures IsSafe(v.title) && Unescape(v.title) == TitleText(title)
    ensures v.body.Empty? <==> rows == []
    ensures v.body.List? ==> |v.body.rows| == |rows|
  {
    EscapeTextIsSafe(TitleText(title));
    UnescapeEscapeText(TitleText(title));
    View(
      EscapeText(TitleText(title)),
      if rows == [] then Empty(Placeholder)
      else List(RowViews(rows)))
  }

  /** The rendered rows, one per row, in order. */
  function RowViews(rows: seq<Row>): (views: seq<RowView>)
    ensures |views| == |rows|
  {
    if rows == [] then [] else [RowViewOf(rows[0])] + RowViews(rows[1..])
  }

  lemma {:induction false} RowViewsAt(rows: seq<Row>, i: nat)
    requires i < |rows|
    ensures RowViews(rows)[i] == RowViewOf(rows[i])
  {
    var head, tail := [RowViewOf(rows[0])], RowViews(rows[1..]);
    assert RowViews(rows) == head + tail;
    if i > 0 {
      RowViewsAt(rows[1..], i - 1);
      assert rows[1..][i - 1] == rows[i];
      assert (head + tail)[i] == tail[i - 1];
    }
  }

  lemma {:induction false} RowViewsAppend(rows: seq<Row>, row: Row)
    ensures RowViews(rows + [row]) == RowViews(rows) + [RowViewOf(row)]
  {
    if rows != [] {
      assert (rows + [row])[1..] == rows[1..] + [row];
      RowViewsAppend(rows[1..], row);
    }
  }

  /** Extending the rendered prefix by one row appends that row's view. */
  lemma RowViewsPrefix(rows: seq<Row>, i: nat)
    requires i < |rows|
    ensures RowViews(rows[..i + 1]) == RowViews(rows[..i]) + [RowViewOf(rows[i])]
  {
    assert rows[..i] + [rows[i]] == rows[..i + 1];
    RowViewsAppend(rows[..i], rows[i]);
  }

  /** The render loop: one rendered row appended per row, in order. */
  method RenderRows(rows: seq<Row>) returns (content: seq<RowView>)
    ensures content == RowViews(rows)
  {
    content := [];
    var i := 0;
    while i < |rows|
      invariant 0 <= i <= |rows|
      invariant content == RowViews(rows[..i])
    {
      RowViewsPrefix(rows, i);
      content := content + [RowViewOf(rows[i])];
      i := i + 1;
    }
    assert rows[..i] == rows;
  }

  /** The render pass: the escaped title, then the placeholder or the rendered rows. */
  method BuildView(title: Option<string>, rows: seq<Row>) returns (v: View)
    ensures v == RenderView(title, rows)
  {
    var heading := EscapeText(TitleText(title));
    if rows == [] {
      v := View(heading, Empty(Placeholder));
    } else {
      var content := RenderRows(rows);
      v := View(heading, List(content));
    }
  }

  /** Every text field of a row view except the two chip colours is escaped: no raw `<`, `>`, `"` or `'`. */
  predicate RowViewSafe(rv: RowView) {
    && IsSafe(rv.time) && IsSafe(rv.labelText) && IsSafe(rv.dest)
    && IsSafe(rv.cancelledBadge) && IsSafe(rv.platform)
    && (rv.until.Some? ==> IsSafe(rv.until.value))
  }

  /** The placeholder appears exactly when there are no rows; otherwise each row is rendered once, in order. */
  lemma RenderViewShape(title: Option<string>, rows: seq<Row>)
    ensures RenderView(title, rows).body.Empty? <==> rows == []
    ensures RenderView(title, rows).body.Empty? ==> RenderView(title, rows).body.message == Placeholder
    ensures RenderView(title, rows).body.List? ==>
              |RenderView(title, rows).body.rows| == |rows| &&
              forall i :: 0 <= i < |rows| ==> RenderView(title, rows).body.rows[i] == RowViewOf(rows[i])
  {
    forall i | 0 <= i < |rows| {
      RowViewsAt(rows, i);
    }
  }

  /** The title and every escaped text field of every row hold no raw `<`, `>`, `"` or `'`.
      The two colour fields are not covered: see `RawColourReachesStyle`. */
  lemma RenderViewSafe(title: Option<string>, rows: seq<Row>)
    ensures IsSafe(RenderView(title, rows).title)
    ensures RenderView(title, rows).body.List? ==>
              forall i :: 0 <= i < |rows| ==> RowViewSafe(RenderView(title, rows).body.rows[i])
  {
    forall i | 0 <= i < |rows| {
      RowViewsAt(rows, i);
    }
  }

  /** The route colours are written into the chip's inline `style` attribute unescaped: a colour value
      holding a double quote reaches the rendered row with that quote intact. */
  lemma RawColourReachesStyle(row: Row)
    requires row.routeColor == "#fff\" onmouseover=\"x"
    ensures '"' in RowViewOf(row).chipBackground
    ensures !IsSafe(RowViewOf(row).chipBackground)
  {
    assert RowViewOf(row).chipBackground[4] == '"';
  }

  /** A delay of exactly two minutes, or any non-positive delay, is green and unsigned; three minutes is red and signed. */
  lemma DelayPresentationExamples()
    ensures DelayColor(Some(2)) == Some(OnTimeColor) && DelaySign(2) == "+"
    ensures DelayColor(Some(0)) == Some(OnTimeColor) && DelaySign(0) == ""
    ensures DelayColor(Some(-3)) == Some(OnTimeColor) && DelaySign(-3) == ""
    ensures DelayColor(Some(3)) == Some(LateColor) && DelaySign(3) == "+"
  {
  }
}
