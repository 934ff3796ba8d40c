/**
  Configuration acceptance (`setConfig`): the card's configuration record is
  normalised to an ordered, non-empty list of entity identifiers, or rejected.
*/
module CardConfig {
  import opened Wrappers

  /** The card's configuration. `entities` is `None` when the key is absent or its value is not an array;
      an absent `entity` or `title` and an empty one are both falsy in the source. */
  datatype Config = Config(title: Option<string>, entity: Option<string>, entities: Option<seq<string>>)

  /** The two errors `setConfig` throws. */
  datatype ConfigError = NoConfiguration | NoEntities

  /** JavaScript truthiness of an optional string attribute: present and non-empty. */
  predicate Truthy(o: Option<string>) {
    o.Some? && o.value != ""
  }

  /** The identifier list `setConfig` stores: a copy of the `entities` array if there is one
      (even an empty one), else `[entity]` if `entity` is non-empty, else nothing. */
  function ResolveEntities(config: Config): (ids: seq<string>)
    ensures config.entities.Some? ==> ids == config.entities.value
    ensures config.entities.None? ==> |ids| <= 1 && (ids != [] <==> Truthy(config.entity))
    ensures config.entities.None? && ids != [] ==> ids[0] == config.entity.value
  {
    match config.entities
    case Some(list) => list[..]
    case None => if Truthy(config.entity) then [config.entity.value] else []
  }

  /** `setConfig` as a validator: no configuration, or no identifier after resolution, is an error. */
  function NormalizeConfig(config: Option<Config>): (r: Result<seq<string>, ConfigError>)
    ensures config.None? <==> r == Failure(NoConfiguration)
    ensures r.Success? ==> |r.value| > 0
  {
    match config
    case None => Failure(NoConfiguration)
    case Some(c) =>
      var ids := ResolveEntities(c);
      if |ids| == 0 then Failure(NoEntities) else Success(ids)
  }

  /** `getCardSize`: three lines of chrome plus one per configured identifier. */
  function CardSize(ids: seq<string>): (n: nat)
    ensures n >= 3 && (n == 3 <==> ids == [])
  {
    3 + |ids|
  }

  /** A configuration is accepted exactly when it exists and resolves to at least one identifier;
      `entities` wins over `entity`, and the accepted list is the resolved one, in order. */
  lemma NormalizeConfigAccepts(config: Option<Config>)
    ensures NormalizeConfig(config).Success? <==>
              config.Some? &&
              (if config.value.entities.Some? then config.value.entities.value != []
               else Truthy(config.value.entity))
    ensures NormalizeConfig(config).Success? ==> NormalizeConfig(config).value == ResolveEntities(config.value)
    ensures NormalizeConfig(config).Failure? && config.Some? ==> NormalizeConfig(config).error == NoEntities
  {
  }

  /** An array `entities` decides alone: `entity` is ignored even when the array is empty. */
  lemma EntitiesArrayWins(title: Option<string>, entity: Option<string>, list: seq<string>)
    ensures NormalizeConfig(Some(Config(title, entity, Some(list)))) ==
              (if list == [] then Failure(NoEntities) else Success(list))
  {
  }

  /** Without an `entities` array, a non-empty `entity` becomes the one-element list; an empty or absent one is rejected. */
  lemma SingleEntity(title: Option<string>, entity: Option<string>)
    ensures NormalizeConfig(Some(Config(title, entity, None))) ==
              (if Truthy(entity) then Success([entity.value]) else Failure(NoEntities))
  {
  }

  /** After an accepted configuration the size hint is three plus the number of identifiers, hence at least four. */
  lemma AcceptedCardSize(config: Option<Config>)
    requires NormalizeConfig(config).Success?
    ensures CardSize(NormalizeConfig(config).value) == 3 + |NormalizeConfig(config).value| >= 4
  {
  }
}
