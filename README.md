# MOTIS departures card — Dafny model

A model of the logic of `motis-departures-card.js`, a Home Assistant dashboard card that
shows upcoming public-transport departures read from sensor entities. The card has
four pieces of logic, and each is modelled and proved here:

- **Configuration acceptance** (`setConfig`). The card turns its configuration record into an
  ordered, non-empty list of entity identifiers, or it fails. Module `CardConfig` holds the
  validator as a pure function. Class `Card.DeparturesCard` holds the fields that
  `setConfig` overwrites.
- **Row derivation** (`_render`, lines 63-88). The configured identifiers are looked up in
  the host's state snapshot. Identifiers without a state are dropped. Each remaining state
  becomes a display row built from fallback chains, colour normalisation and a delay in
  whole minutes (module `Rows`).
- **Presentation decisions and the render loop** (`_render`, lines 90-128). These are the
  empty-list placeholder, the delay colour and sign, the blink flag and the cancelled badge.
  The loop that appends one rendered row per derived row is a method proved against the
  function `Render.RenderView` (module `Render`). The markup is an abstract record (`View`,
  `RowView`), not HTML text.
- **HTML escaping** (`_escapeHtml`). The chain of five global replacements is modelled as
  written (`HtmlEscape.EscapeHtml`). It is proved equal to a character-by-character
  definition (`HtmlEscape.EscapeText`), which the render pass uses. It is also proved safe,
  compositional and reversible.

Entities are `State` records in a `map<string, State>`. The snapshot is read-only. Text
attributes are `Option<string>`, and an absent attribute and an empty one are both falsy,
as in JavaScript. `planned_time` and `realtime_time` are integer milliseconds. The host's
locale time formatting (`toLocaleTimeString`) is a parameter `formatTime: string -> string`.

Three behaviours of the code are worth stating explicitly, and the model follows them:

- An `entities` value that is an array decides the list alone, even when the array is empty.
  An empty `entities` array is rejected even when `entity` is set (motis-departures-card.js:6-12).
- A non-empty primary state value is always passed to the locale formatter
  (motis-departures-card.js:73). It is not passed through raw when it does not parse as a
  date: an unparsable value yields whatever the formatter yields. The formatter is opaque here.
- A `setConfig` call that fails only because the resolved list is empty still stores the new
  configuration and an empty list first (motis-departures-card.js:4-5, 12). Only a missing
  configuration leaves the card untouched.

## Model

| member | source | states |
|---|---|---|
| `CardConfig.NormalizeConfig` | motis-departures-card.js:2-12 | a missing configuration fails with `NoConfiguration`, and only then; an accepted list is non-empty |
| `CardConfig.NormalizeConfigAccepts` | motis-departures-card.js:3-12 | a configuration is accepted iff it exists and either its `entities` array is non-empty or, with no array, `entity` is non-empty; the accepted list is the resolved one; any other rejection is `NoEntities` |
| `CardConfig.EntitiesArrayWins` | motis-departures-card.js:6-10 | with an `entities` array, the result is that array in order or, if it is empty, `NoEntities`, whatever `entity` holds |
| `CardConfig.SingleEntity` | motis-departures-card.js:6-12 | without an `entities` array, a non-empty `entity` gives the one-element list `[entity]`; an empty or absent one gives `NoEntities` |
| `CardConfig.ResolveEntities` | motis-departures-card.js:5-10 | the stored list is the `entities` array itself when there is one; otherwise it is `[entity]` when `entity` is non-empty, and empty when it is not |
| `CardConfig.CardSize` | motis-departures-card.js:22-25 | the size hint is at least 3, and exactly 3 only when no identifier is configured |
| `CardConfig.AcceptedCardSize` | motis-departures-card.js:22-25 | after an accepted configuration the size hint is 3 plus the number of identifiers, hence at least 4 |
| `Rows.FirstNonEmpty` | motis-departures-card.js:68-70 | the result is empty iff every candidate is empty or absent; otherwise it is the first non-empty candidate, and all earlier ones are empty |
| `Rows.NormalizeColor` | motis-departures-card.js:77-78 | a non-empty value is kept when it starts with `#` and gets `#` prepended otherwise; an empty or absent value gives the default; the result starts with `#` whenever the default does |
| `Rows.NormalizeColorIdempotent` | motis-departures-card.js:77-78 | normalising an already normalised colour changes nothing |
| `Rows.DelayMinutes` | motis-departures-card.js:84 | the result is the whole number of minutes nearest to the millisecond delta, with halves rounded up, as `Math.round` does: `60000*m - 30000 <= delta < 60000*m + 30000` |
| `Rows.DelayMinutesUnique` | motis-departures-card.js:84 | any integer within those bounds is the computed delay, so the rounding is fully determined |
| `Rows.Delay` | motis-departures-card.js:80-85 | a delay exists iff the planned time, the realtime time and the realtime flag are all present; it is then the whole number of minutes `m` nearest to realtime minus planned, halves up: `60000*m - 30000 <= delta < 60000*m + 30000` |
| `Rows.FiveMinutesLate` | motis-departures-card.js:80-85 | a realtime time five minutes after the planned time gives a delay of 5; without the realtime flag there is no delay |
| `Rows.PresentIds` | motis-departures-card.js:63-65 | an identifier is kept iff it is configured and has a state; each kept identifier keeps its multiplicity; missing ones vanish |
| `Rows.PresentIdsConcat` | motis-departures-card.js:63-65 | dropping missing identifiers keeps the configured order: filtering a concatenation is the concatenation of the filtered parts |
| `Rows.PresentIdsAllPresent` | motis-departures-card.js:63-65 | when every configured identifier has a state, none is dropped |
| `Rows.DeriveRows` | motis-departures-card.js:63-88 | there is exactly one row per configured identifier that has a state |
| `Rows.DeriveRowsAt` | motis-departures-card.js:63-88 | the i-th row is derived from the state of the i-th configured identifier that has one |
| `Rows.NoRowsIffNonePresent` | motis-departures-card.js:63-65 | there are no rows iff no configured identifier has a state |
| `Rows.DeriveRow` | motis-departures-card.js:66-87 | the row of one state record keeps the entity id and the cancelled flag, both colours start with `#`, and a delay exists iff both timestamps and the realtime flag are present; the remaining fields are stated by `DeriveRowFallbacks` |
| `Rows.TimeText` | motis-departures-card.js:73 | the time shown is `realtime_time_local` when non-empty, else the formatted primary value when that is non-empty, else empty |
| `Rows.DeriveRowFallbacks` | motis-departures-card.js:66-87 | label is the first non-empty of label, route and display_name, else empty; destination likewise with destination and headsign; platform and until default to empty; time is `realtime_time_local`, else the formatted state, else empty; id is the state's entity id; the route colour is `#ffffff` and the text colour `#000000` when absent or empty, and otherwise normalised by `NormalizeColor`; the delay is `Delay` of the attributes |
| `Render.DelayColor` | motis-departures-card.js:98 | no delay gives no colour; a delay above 2 gives `#ff0000`; any other delay, including 2 and negative ones, gives `#00aa00` |
| `Render.DelaySign` | motis-departures-card.js:102 | the prefix is `+` iff the delay is positive, and empty otherwise |
| `Render.DelayBadgeOf` | motis-departures-card.js:99-103 | the delay annotation is present iff there is a delay; it carries the delay, the delay colour and the sign prefix, which is `+` iff the delay is positive |
| `Render.Blink` | motis-departures-card.js:104 | the until text blinks iff it is non-empty and its first character is not a decimal digit |
| `Render.Badge` | motis-departures-card.js:105 | the cancelled badge is non-empty iff the departure is cancelled |
| `Render.TitleText` | motis-departures-card.js:61 | the title is the configured one when non-empty, else "Next departures"; it is never empty |
| `Render.RowViewOf` | motis-departures-card.js:97-121 | each text field of a rendered row (time, label, destination, cancelled badge, platform, until) decodes back to the row's own text and holds no raw `<`, `>`, `"` or `'`; the badge is non-empty iff the row is cancelled; the blink flag is `Blink` of the until text; the until suffix is present iff the until text is non-empty; the chip colours are the row's colours, raw; the delay annotation and the until colour are those of the row's delay |
| `Render.RenderView` | motis-departures-card.js:90-126 | the title decodes back to `TitleText(title)` (the configured title or "Next departures") and holds no raw `<`, `>`, `"` or `'`; the body is the placeholder iff there are no rows, and otherwise holds one rendered row per row |
| `Render.RenderRows` | motis-departures-card.js:96-122 | the loop appends one rendered row per derived row, in order |
| `Render.BuildView` | motis-departures-card.js:90-126 | the assembled view equals the specification `RenderView`: the escaped title, then the placeholder or the rendered rows |
| `Render.RenderViewShape` | motis-departures-card.js:92-95 | the placeholder "No departures available" appears iff there are no rows; otherwise row i of the view renders row i |
| `Render.RenderViewSafe` | motis-departures-card.js:90-121 | the title and every escaped text field of every row (time, label, destination, badge, platform, until) hold no raw `<`, `>`, `"` or `'`; the colour fields are not covered |
| `Render.RawColourReachesStyle` | motis-departures-card.js:97-109 | a route colour holding a double quote reaches the chip's inline style unescaped, so that field is not safe |
| `Render.DelayPresentationExamples` | motis-departures-card.js:98-102 | 2 minutes is green with `+`; 0 and -3 are green without a sign; 3 is red with `+` |
| `Card.PlaceholderWhenNothingPresent` | motis-departures-card.js:92-93 | when no configured identifier has a state, the view is the placeholder and holds no rows |
| `Card.DeparturesCard.SetConfig` | motis-departures-card.js:2-15 | fails exactly as `NormalizeConfig` does; a missing configuration changes nothing; otherwise the configuration and the resolved list are stored even on failure; success attaches the shadow root and leaves a size hint of at least 4 |
| `Card.DeparturesCard.GetCardSize` | motis-departures-card.js:22-25 | the size hint of the stored identifier list |
| `Card.DeparturesCard.SetHass` | motis-departures-card.js:17-20 | stores the snapshot and re-renders; configuration and identifiers are unchanged |
| `Card.DeparturesCard.Render` | motis-departures-card.js:27-129 | without a shadow root or a snapshot the output is unchanged; otherwise the whole output is replaced by the view of the rows derived from the current identifiers and snapshot |
| `HtmlEscape.EscapeHtml` | motis-departures-card.js:131-133 | the empty string escapes to the empty string |
| `HtmlEscape.ReplaceChain` | motis-departures-card.js:133-138 | the five global replacements in source order, `&` first; the output holds no raw `<`, `>`, `"` or `'`, because each step removes its character and no entity reintroduces one removed earlier |
| `HtmlEscape.ReplaceChainChar` | motis-departures-card.js:133-138 | the replacement chain maps each single character to exactly one of `&amp;`, `&lt;`, `&gt;`, `&quot;`, `&#039;` or itself; because `&` is replaced first, no entity is escaped twice |
| `HtmlEscape.EscapeHtmlIsEscapeText` | motis-departures-card.js:131-139 | the replacement chain equals character-by-character escaping |
| `HtmlEscape.EscapeHtmlIsSafe` | motis-departures-card.js:131-139 | the output holds none of the raw characters `<`, `>`, `"` and `'` |
| `HtmlEscape.EscapeHtmlConcat` | motis-departures-card.js:131-139 | escaping distributes over concatenation: `esc(a + b) == esc(a) + esc(b)` |
| `HtmlEscape.UnescapeEscapeHtml` | motis-departures-card.js:131-139 | decoding the five entities in the output gives the input back, so escaping loses nothing |

## Left out

- The DOM and host plumbing: `HTMLElement`, `attachShadow`, the shadow root's `innerHTML` and `customElements.define` (motis-departures-card.js:1, 14, 128, 142). The shadow root is a boolean, and the rendered output is a `View` record.
- The CSS block and the exact markup text and whitespace (motis-departures-card.js:30-59, 106-121). The view keeps what each row shows, not how it is spelled in HTML. This includes the garbled separator before the until text and the class name `.blinking-text`: only the blink decision is modelled.
- Date parsing and locale formatting (`new Date`, `toLocaleTimeString`, motis-departures-card.js:73, 82-83). Timestamps are given integers in milliseconds, and the formatter is a parameter. Unparsable timestamps, which would give a `NaN` delay, are not modelled.
- Floating-point division in the delay computation. The model divides exactly. This agrees with the source for integer millisecond deltas of magnitude below 2^53.
- General JavaScript truthiness over arbitrary attribute types. Text attributes are optional strings, `realtime` and `cancelled` are booleans, and a non-array `entities` value is the same as an absent one.
- The numeric branch of `_escapeHtml` (`str !== 0`, then `String(str)`). The `0` case cannot arise: every caller applies `|| ''` or `|| 'Next departures'` to the value first, so `0` becomes a string. A non-zero number (say a numeric `platform`) would be converted with `String`; text attributes are modelled as strings, so that conversion is not modelled.
- The route colours are not escaped: `route_color` and `route_text_color` are written into the chip's inline `style` attribute as they come from the host, after `#` normalisation (motis-departures-card.js:77-78, 97, 109). The model keeps them raw, as the code does, and `Render.RawColourReachesStyle` shows that a quote in a colour reaches the style attribute. Whether the host's sensor data can be trusted here is outside the card.
- A second successful `setConfig` makes the browser's `attachShadow` throw. That is DOM behaviour and is not modelled.
