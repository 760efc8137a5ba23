/** The plugin's settings record and its title-preference enumeration. */
module Configuration {

  /** Which language a resolved title should be in. */
  datatype TitlePreferenceType = Localized | Japanese | JapaneseRomaji

  /** The genre added by the genre post-processor when a series has none of its own. */
  datatype AnimeDefaultGenreType = NoDefaultGenre | Anime | Animation

  /** The settings the metadata pipeline reads. */
  datatype PluginConfiguration = PluginConfiguration(
    TitlePreference: TitlePreferenceType,
    OriginalTitlePreference: TitlePreferenceType,
    IgnoreSeason: bool,
    TitleSimilarityThreshold: int,
    MaxGenres: int,
    TidyGenreList: bool,
    TitleCaseGenres: bool,
    AnimeDefaultGenre: AnimeDefaultGenreType,
    AniDbRateLimit: int,
    MaxCacheAge: int,
    AniDbReplaceGraves: bool,
    RecentBanSeconds: int)

  /** Seconds in an hour, used for the ban window default. */
  const SecondsPerHour: int := 60 * 60

  /** The values a freshly constructed configuration holds. */
  function DefaultConfiguration(): (c: PluginConfiguration)
    ensures c.TitlePreference == Localized && c.OriginalTitlePreference == JapaneseRomaji
    ensures c.RecentBanSeconds == 7200
  {
    PluginConfiguration(
      TitlePreference := Localized,
      OriginalTitlePreference := JapaneseRomaji,
      IgnoreSeason := false,
      TitleSimilarityThreshold := 50,
      MaxGenres := 5,
      TidyGenreList := true,
      TitleCaseGenres := false,
      AnimeDefaultGenre := Anime,
      AniDbRateLimit := 2000,
      MaxCacheAge := 7,
      AniDbReplaceGraves := true,
      RecentBanSeconds := 2 * SecondsPerHour)
  }

  /** The preference enumeration has exactly three members. */
  lemma TitlePreferenceCases(p: TitlePreferenceType)
    ensures p == Localized || p == Japanese || p == JapaneseRomaji
    ensures Localized != Japanese && Japanese != JapaneseRomaji && Localized != JapaneseRomaji
  {
  }

  /** Every other default: rate limit, cache age, grave replacement, genre and season settings. */
  lemma DefaultSettings()
    ensures DefaultConfiguration().AniDbRateLimit == 2000
    ensures DefaultConfiguration().MaxCacheAge == 7
    ensures DefaultConfiguration().AniDbReplaceGraves
    ensures DefaultConfiguration().MaxGenres == 5
    ensures DefaultConfiguration().TidyGenreList && !DefaultConfiguration().TitleCaseGenres
    ensures !DefaultConfiguration().IgnoreSeason
    ensures DefaultConfiguration().TitleSimilarityThreshold == 50
    ensures DefaultConfiguration().AnimeDefaultGenre == Anime
  {
  }
}
