/**
 * The host's catalog entities that the provider fills in: the series item and
 * the metadata result around it. Each class has a `Fields` snapshot so that
 * the pipeline's steps can be specified as functions on values.
 */
module Entities {
  import opened Wrappers
  import opened People

  /** The external catalogs whose identifiers a series records. */
  datatype ProviderKey = AniDbKey | ImdbKey | TheMovieDbKey

  /** The state of a series item at one moment. */
  datatype SeriesFields = SeriesFields(
    name: Option<string>,
    originalTitle: Option<string>,
    overview: Option<string>,
    officialRating: Option<string>,
    genres: seq<string>,
    studios: seq<string>,
    providerIds: map<ProviderKey, string>)

  /** The state of a metadata result at one moment. */
  datatype ResultFields = ResultFields(item: SeriesFields, people: seq<PersonInfo>, hasMetadata: bool)

  /** A freshly constructed series item. */
  const EmptySeries: SeriesFields := SeriesFields(None, None, None, None, [], [], map[])

  /** The series item (`MediaBrowser.Controller.Entities.TV.Series`). */
  class Series {
    var name: Option<string>
    var originalTitle: Option<string>
    var overview: Option<string>
    var officialRating: Option<string>
    var genres: seq<string>
    var studios: seq<string>
    var providerIds: map<ProviderKey, string>

    function Fields(): SeriesFields
      reads this
    {
      SeriesFields(name, originalTitle, overview, officialRating, genres, studios, providerIds)
    }

    constructor ()
      ensures Fields() == EmptySeries
    {
      name, originalTitle, overview, officialRating := None, None, None, None;
      genres, studios, providerIds := [], [], map[];
    }

    /** `AddStudio`, as an append. */
    method AddStudio(studio: string)
      modifies this
      ensures Fields() == old(Fields()).(studios := old(studios) + [studio])
    {
      studios := studios + [studio];
    }
  }

  /** The metadata result (`MetadataResult<Series>`): the item, its people and the presence flag. */
  class MetadataResult {
    const item: Series
    var people: seq<PersonInfo>
    var hasMetadata: bool

    function Fields(): ResultFields
      reads this, item
    {
      ResultFields(item.Fields(), people, hasMetadata)
    }

    constructor (item: Series)
      ensures this.item == item && people == [] && !hasMetadata
    {
      this.item := item;
      people, hasMetadata := [], false;
    }

    /** `AddPerson`, as an append. */
    method AddPerson(p: PersonInfo)
      modifies this
      ensures Fields() == old(Fields()).(people := old(people) + [p])
    {
      people := people + [p];
    }
  }
}
