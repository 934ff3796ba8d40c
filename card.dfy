/**
  The card object. `setConfig` and the `hass` setter update its private fields in
  place; every state push re-renders the whole view from the configured
  identifiers and the pushed snapshot.
*/
module Card {
  import opened Wrappers
  import opened CardConfig
  import opened Rows
  import opened Render

  class DeparturesCard {
    /** The last configuration accepted past the null check. */
    var config: Option<Config>
    /** The resolved identifier list (`_entities`). */
    var entities: seq<string>
    /** The last pushed host snapshot (`_hass`), never written by the card. */
    var hass: Option<States>
    /** Whether `attachShadow` has run, i.e. some `setConfig` call has succeeded. */
    var hasShadowRoot: bool
    /** The card's rendered output (the shadow root's content). */
    var rendered: Option<View>
    /** The host's locale formatting of a departure time. */
    const formatTime: string -> string

    /** A shadow root is only attached by a `setConfig` that stored a configuration. */
    ghost predicate Valid()
      reads this
    {
      hasShadowRoot ==> config.Some?
    }

    constructor (formatTime: string -> string)
      ensures Valid()
      ensures this.formatTime == formatTime
      ensures config.None? && entities == [] && hass.None? && !hasShadowRoot && rendered.None?
    {
      this.formatTime := formatTime;
      config := None;
      entities := [];
      hass := None;
      hasShadowRoot := false;
      rendered := None;
    }

    /** `setConfig`: a missing configuration is rejected with nothing changed; otherwise the configuration
        and the resolved list are stored before the emptiness check, so a configuration rejected
        because its list is empty still replaces them; only an accepted one attaches the shadow root. */
    method SetConfig(c: Option<Config>) returns (error: Option<ConfigError>)
      requires Valid()
      modifies this
      ensures Valid()
      ensures error.None? <==> NormalizeConfig(c).Success?
      ensures error.Some? ==> Failure(error.value) == NormalizeConfig(c)
      ensures c.None? ==> config == old(config) && entities == old(entities)
      ensures c.Some? ==> config == c && entities == ResolveEntities(c.value)
      ensures error.None? ==> entities == NormalizeConfig(c).value && CardSize(entities) >= 4
      ensures hasShadowRoot == (old(hasShadowRoot) || error.None?)
      ensures hass == old(hass) && rendered == old(rendered)
    {
      if c.None? {
        return Some(NoConfiguration);
      }
      config := c;
      entities := [];
      if c.value.entities.Some? {
        entities := c.value.entities.value;
      } else if Truthy(c.value.entity) {
        entities := [c.value.entity.value];
      }
      if |entities| == 0 {
        return Some(NoEntities);
      }
      hasShadowRoot := true;
      error := None;
    }

    /** `getCardSize`. */
    function GetCardSize(): (n: nat)
      reads this
      ensures n == CardSize(entities)
    {
      CardSize(entities)
    }

    /** The `hass` setter: store the snapshot, then render. */
    method SetHass(states: States)
      requires Valid()
      modifies this
      ensures Valid()
      ensures hass == Some(states)
      ensures config == old(config) && entities == old(entities) && hasShadowRoot == old(hasShadowRoot)
      ensures rendered == if hasShadowRoot
                          then Some(RenderView(config.value.title, DeriveRows(entities, states, formatTime)))
                          else old(rendered)
    {
      hass := Some(states);
      Render();
    }

    /** `_render`: without a shadow root or a snapshot nothing happens; otherwise the whole output is
        replaced by the view of the rows derived from the current identifiers and snapshot. */
    method Render()
      requires Valid()
      modifies this`rendered
      ensures rendered == if hasShadowRoot && hass.Some?
                          then Some(RenderView(config.value.title, DeriveRows(entities, hass.value, formatTime)))
                          else old(rendered)
    {
      if hasShadowRoot && hass.Some? {
        var title, ids, states := config.value.title, entities, hass.value;
        var rows := DeriveRows(ids, states, formatTime);
        var view := BuildView(title, rows);
        rendered := Some(view);
      }
    }
  }

  /** A card configured with identifiers none of which has a state renders the placeholder and no row. */
  lemma PlaceholderWhenNothingPresent(title: Option<string>, ids: seq<string>, states: States, formatTime: string -> string)
    requires forall i :: 0 <= i < |ids| ==> ids[i] !in states
    ensures RenderView(title, DeriveRows(ids, states, formatTime)).body == Empty(Placeholder)
  {
  }
}
