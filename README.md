# AniDB metadata provider, modelled and verified in Dafny

This project models the core of the Jellyfin AniDB plugin: how it fetches, caches and parses the
AniDB description of one anime series and turns it into series metadata. It covers:

- the title resolver, which picks a display title and an original title from language- and
  type-tagged candidates under the plugin's title preferences;
- the section parsers: tags become genres and an adult rating, resources become IMDb and
  TheMovieDb ids, creators become studios and people, characters become actors, and the
  description becomes the overview;
- the on-disk cache: the validity window, the download with its error scan and its write order,
  the per-episode files and the cross-series person files;
- the ban-aware orchestration in `GetMetadataForId`: the ban guard, ban marking on the exact
  `<error code="500">banned</error>` element, and the title-only fallback with its metadata flag;
- the image provider: its guard, the URL of the first picture, and the supported item kinds and
  image types;
- the settings record and its defaults.

## How the model is built

**Entities.**
- `Entities.Series` and `Entities.MetadataResult` are classes whose fields the parsers update in place.
- `Cache.FileStore` is a class holding the file system as a map from path to file entry.
  A path is a sequence of components, and `Path.Combine` appends components. Every person name,
  episode number and series id is taken as one component (see "Paths" under "## Left out").
- Every in-place method has an `ensures` that ties the new state to a pure step function of the old
  state (`SeriesParser.TagsApplied`, `Cache.Download`, `SeriesProvider.MetadataForId`, …).
  The properties the source promises are proved as lemmas about those functions.
- Titles, tags, resources, creators, characters, episodes and person records are datatypes.

**The XML document.**
- The document arrives already tokenised: a `tokenise` function gives a sequence of section
  records and a flag that says the reader fails after them.
  One flag serves every reader of the document; the readers that disagree on what is malformed
  are listed under "## Left out" ("One malformed flag").
- Each parser reads the records of its section in document order.
- `FirstPicture` follows `picture` elements into the characters section, because the image
  provider's reader finds the first `picture` element at any depth.

**Parameters for what lies outside the core.**
- The current time, in 100 ns ticks.
- The process-wide ban flag `BannedRecently`. `MarkBanned` becomes a boolean output.
- The HTTP response: its body, or `HttpFailure` when the request throws.
- The fallback titles that `Equals_check.FindTitlesXmlById` returns, and the id it finds by name.
- The link stripper `StripAniDbLinks`, the genre cleaner `GenreHelper.CleanupGenres` and the
  role-label table `_typeMappings`.

**Numbers and strings.**
- Integer attributes read with `int.TryParse` are `Option<int>`.
- Exceptions are a datatype. The message of the AniDB error exception is built exactly as the
  source builds it ("AniDB API error " followed by the matched element). Every other exception's
  message is its .NET type name, because the ban test only looks for the marker.

## Model

| member | source | states |
|---|---|---|
| Configuration.DefaultConfiguration | Jellyfin.Plugin.AniDB/Configuration/PluginConfiguration.cs:30-44 | The settings record starts with title preference `Localized`, original-title preference `JapaneseRomaji` and a recent-ban window of 2*60*60 = 7200 seconds. |
| Configuration.TitlePreferenceCases | Jellyfin.Plugin.AniDB/Configuration/PluginConfiguration.cs:5-21 | The title preference has exactly three values, `Localized`, `Japanese` and `JapaneseRomaji`, and they are pairwise distinct. |
| Configuration.DefaultSettings | Jellyfin.Plugin.AniDB/Configuration/PluginConfiguration.cs:34-42 | The other defaults: rate limit 2000 ms, cache age 7 days, grave replacement on, 5 genres, tidy genre list on, title-case genres off, `IgnoreSeason` off, similarity threshold 50, default genre `Anime`. |
| Titles.FirstOf | Jellyfin.Plugin.AniDB/Providers/AniDB/Metadata/AniDbSeriesProvider.cs:3335-3337 | Finds the first candidate with the given language and type; none before it matches, and None means no candidate matches. |
| Titles.FirstMain | Jellyfin.Plugin.AniDB/Providers/AniDB/Metadata/AniDbSeriesProvider.cs:3360 | Finds the first candidate of type `main` in any language; none before it has that type, and None means no candidate has it. |
| Titles.LocalizeIndex | Jellyfin.Plugin.AniDB/Providers/AniDB/Metadata/AniDbSeriesProvider.cs:3328-3362 | The chosen index is in range, and there is no choice exactly when the candidate list is empty. |
| Titles.Localize | Jellyfin.Plugin.AniDB/Providers/AniDB/Metadata/AniDbSeriesProvider.cs:3328-3362 | The resolver returns null only for an empty candidate list, and otherwise returns one of the candidates. |
| Titles.LocalizePicksFirstBest | Jellyfin.Plugin.AniDB/Providers/AniDB/Metadata/AniDbSeriesProvider.cs:3332-3361 | The chosen title has the best rank of all candidates (preferred language main, official, synonym, then x-jat main, then any main, then anything), and every earlier candidate ranks strictly worse: the tier search is a first-best search. |
| Titles.DefaultTiersBest | Jellyfin.Plugin.AniDB/Providers/AniDB/Metadata/AniDbSeriesProvider.cs:3358-3361 | When no candidate is in the preferred language, the romaji fallback chain picks the first candidate of best rank. |
| Titles.LocalizedPreferenceFallsBack | Jellyfin.Plugin.AniDB/Providers/AniDB/Metadata/AniDbSeriesProvider.cs:3332-3361 | Under `Localized`, a list without the requested language resolves exactly as the romaji fallback chain. |
| Titles.ResolutionExample | Jellyfin.Plugin.AniDB/Providers/AniDB/Metadata/AniDbSeriesProvider.cs:3328-3362 | On an English, Japanese and romaji main title, `Localized`/"en", `JapaneseRomaji` and `Japanese` pick the English, the romaji and the Japanese titles. |
| Titles.ParseTitleAsWritten | Jellyfin.Plugin.AniDB/Providers/AniDB/Metadata/AniDbSeriesProvider.cs:2876-2901 | The title parse as written fails exactly on an empty candidate list, where it dereferences the null that the resolver returns. |
| Titles.ParseTitleThrowsOnEmpty | Jellyfin.Plugin.AniDB/Providers/AniDB/Metadata/AniDbSeriesProvider.cs:2897 | An empty candidate list makes the title parse as written raise a null-reference exception. |
| Titles.ResolveTitles | Jellyfin.Plugin.AniDB/Providers/AniDB/Metadata/AniDbSeriesProvider.cs:2897-2898 | Each resolved title is absent exactly when the candidate list is empty, and whenever the as-written parse succeeds it agrees with it. |
| Titles.GravesIf | Jellyfin.Plugin.AniDB/Providers/AniDB/Metadata/AniDbSeriesProvider.cs:2915-2919 | Grave replacement keeps a title null or empty exactly when it was. |
| Titles.TitlesAppliedFalseIff | Jellyfin.Plugin.AniDB/Providers/AniDB/Metadata/AniDbSeriesProvider.cs:2909-2913 | Applying titles reports false exactly when both resolved titles are null or empty, changes nothing then, and always reports false for an empty candidate list. |
| Titles.TitlesAppliedFields | Jellyfin.Plugin.AniDB/Providers/AniDB/Metadata/AniDbSeriesProvider.cs:2915-2933 | `Name` gets the (grave-replaced) title when it is non-empty, the original title only under the fallback flag, and is otherwise kept; `OriginalTitle` changes only to a non-empty original title; no other field changes. |
| Titles.TitlesAppliedWhenNamed | Jellyfin.Plugin.AniDB/Providers/AniDB/Metadata/AniDbSeriesProvider.cs:2909-2936 | With the fallback flag, non-empty candidates with non-empty names always apply a non-empty `Name`. |
| SeriesParser.ApplyTitles | Jellyfin.Plugin.AniDB/Providers/AniDB/Metadata/AniDbSeriesProvider.cs:2903-2936 | Updating the series in place leaves it, and returns the flag, exactly as the title step function says. |
| Tags.Weighted | Jellyfin.Plugin.AniDB/Providers/AniDB/Metadata/AniDbSeriesProvider.cs:2697-2707 | The genre candidates of one tag are exactly its names, each paired with the tag's weight. |
| Tags.TagGenres | Jellyfin.Plugin.AniDB/Providers/AniDB/Metadata/AniDbSeriesProvider.cs:2677-2707 | A tag contributes a genre exactly when it is not suppressed by its id or parent id and its weight (0 when missing or unparseable) is at least 400; the genre carries that weight and one of the tag's names. |
| Tags.CandidatesMembership | Jellyfin.Plugin.AniDB/Providers/AniDB/Metadata/AniDbSeriesProvider.cs:2671-2712 | A genre candidate of the tag list comes from some tag, and every tag's candidates are included. |
| Tags.AnyRestricted | Jellyfin.Plugin.AniDB/Providers/AniDB/Metadata/AniDbSeriesProvider.cs:2700-2703 | The adult rating is triggered exactly when some tag that is not suppressed has the name "18 restricted". |
| Tags.SortByWeightSorted | Jellyfin.Plugin.AniDB/Providers/AniDB/Metadata/AniDbSeriesProvider.cs:2714 | The weight sort yields ascending weights. |
| Tags.SortByWeightPermutes | Jellyfin.Plugin.AniDB/Providers/AniDB/Metadata/AniDbSeriesProvider.cs:2714 | The weight sort is a permutation of its input. |
| Tags.SortByWeightStable | Jellyfin.Plugin.AniDB/Providers/AniDB/Metadata/AniDbSeriesProvider.cs:2714 | The weight sort is stable: the candidates of any one weight keep their document order. |
| Tags.GenreNames | Jellyfin.Plugin.AniDB/Providers/AniDB/Metadata/AniDbSeriesProvider.cs:2714 | Projecting the sorted candidates keeps their order and takes each candidate's name. |
| Tags.GenreFromTag | Jellyfin.Plugin.AniDB/Providers/AniDB/Metadata/AniDbSeriesProvider.cs:2677-2714 | Every name in the genre list was contributed by some tag that is not suppressed, has weight at least 400 and carries that name. |
| Tags.GenreOfTag | Jellyfin.Plugin.AniDB/Providers/AniDB/Metadata/AniDbSeriesProvider.cs:2677-2714 | Every such contributing tag puts its name into the genre list. |
| Tags.GenreListMembership | Jellyfin.Plugin.AniDB/Providers/AniDB/Metadata/AniDbSeriesProvider.cs:2677-2714 | A name is in the genre list exactly when some tag contributes it. |
| Tags.GenreListOrder | Jellyfin.Plugin.AniDB/Providers/AniDB/Metadata/AniDbSeriesProvider.cs:2714 | The genre list is ordered by ascending weight, holds exactly the candidates, and keeps document order among equal weights. |
| Tags.TagsRating | Jellyfin.Plugin.AniDB/Providers/AniDB/Metadata/AniDbSeriesProvider.cs:2700-2703 | After the tags the rating is "XXX" exactly when a tag that is not suppressed is named "18 restricted" or it was already "XXX"; otherwise the rating is kept, and only genres and rating change. |
| SeriesParser.ParseTagNames | Jellyfin.Plugin.AniDB/Providers/AniDB/Metadata/AniDbSeriesProvider.cs:2693-2710 | Reading one tag's names appends them with the tag's weight only if the weight is at least 400, and sets the adult rating when one is "18 restricted". |
| SeriesParser.ParseTags | Jellyfin.Plugin.AniDB/Providers/AniDB/Metadata/AniDbSeriesProvider.cs:2669-2715 | The tag loop leaves the series exactly as the tag step function says (genre list and rating). |
| Resources.Identifiers | Jellyfin.Plugin.AniDB/Providers/AniDB/Metadata/AniDbSeriesProvider.cs:2758-2760 | The identifier texts of a resource are exactly those of its `identifier` elements, in order. |
| Resources.ImdbIdFirst | Jellyfin.Plugin.AniDB/Providers/AniDB/Metadata/AniDbSeriesProvider.cs:2756-2770 | The IMDb id is the first identifier of the resource, stored only when it is non-empty. |
| Resources.ImdbIdNone | Jellyfin.Plugin.AniDB/Providers/AniDB/Metadata/AniDbSeriesProvider.cs:2756-2770 | A resource without identifiers stores no IMDb id. |
| Resources.Store | Jellyfin.Plugin.AniDB/Providers/AniDB/Metadata/AniDbSeriesProvider.cs:2765 | Storing an id sets only that key, and storing nothing keeps the ids. |
| Resources.ResourceAppliedAt | Jellyfin.Plugin.AniDB/Providers/AniDB/Metadata/AniDbSeriesProvider.cs:2727-2738 | A resource changes a provider key exactly when its type code ("43" for IMDb, "44" for TheMovieDb) yields an id for that key; other codes, "4" included, change nothing. |
| Resources.ResourcesUntouched | Jellyfin.Plugin.AniDB/Providers/AniDB/Metadata/AniDbSeriesProvider.cs:2719-2741 | A key that no resource yields keeps its previous value or absence. |
| Resources.ResourcesLastContribution | Jellyfin.Plugin.AniDB/Providers/AniDB/Metadata/AniDbSeriesProvider.cs:2719-2741 | A key ends with the id of the last resource that yields one. |
| Resources.ResourcesLastWins | Jellyfin.Plugin.AniDB/Providers/AniDB/Metadata/AniDbSeriesProvider.cs:2719-2741 | Both cases at once: keys nobody yields are kept, and the last contribution wins. |
| Resources.ResourcesKeepAniDbId | Jellyfin.Plugin.AniDB/Providers/AniDB/Metadata/AniDbSeriesProvider.cs:2717-2742 | Resources never touch the AniDB id. |
| Resources.TheMovieDbUpperCaseTv | Jellyfin.Plugin.AniDB/Providers/AniDB/Metadata/AniDbSeriesProvider.cs:2792 | "TV" as the second identifier is accepted, by case-insensitive comparison. |
| Resources.TheMovieDbMovieRefused | Jellyfin.Plugin.AniDB/Providers/AniDB/Metadata/AniDbSeriesProvider.cs:2792 | "movie" as the second identifier stores no TheMovieDb id. |
| Resources.TheMovieDbNeedsMediaType | Jellyfin.Plugin.AniDB/Providers/AniDB/Metadata/AniDbSeriesProvider.cs:2792 | A single identifier stores no TheMovieDb id. |
| SeriesParser.ParseImdbResource | Jellyfin.Plugin.AniDB/Providers/AniDB/Metadata/AniDbSeriesProvider.cs:2756-2770 | The loop stores the first identifier of the resource under the IMDb key when it is non-empty. |
| SeriesParser.ReadTheMovieDbIdentifiers | Jellyfin.Plugin.AniDB/Providers/AniDB/Metadata/AniDbSeriesProvider.cs:2774-2790 | The loop returns the first identifier as the id and the second as the media type, each absent when missing. |
| SeriesParser.ParseTheMovieDbResource | Jellyfin.Plugin.AniDB/Providers/AniDB/Metadata/AniDbSeriesProvider.cs:2772-2796 | The TheMovieDb id is stored only when it is non-empty and the second identifier is "tv" ignoring case. |
| SeriesParser.ParseResources | Jellyfin.Plugin.AniDB/Providers/AniDB/Metadata/AniDbSeriesProvider.cs:2717-2742 | The provider ids become exactly those the resource step function gives. |
| People.FindKind | Jellyfin.Plugin.AniDB/Providers/AniDB/Metadata/AniDbSeriesProvider.cs:2964 | The kind whose name equals the label, or None when no listed kind has that name. |
| People.KindNamed | Jellyfin.Plugin.AniDB/Providers/AniDB/Metadata/AniDbSeriesProvider.cs:2964 | A parsed kind has exactly the label's name. |
| People.ActorKindNamed | Jellyfin.Plugin.AniDB/Providers/AniDB/Metadata/AniDbSeriesProvider.cs:2851 | The label "Actor" names the kind `Actor`. |
| People.ActorTypeTrimmed | Jellyfin.Plugin.AniDB/Providers/AniDB/Metadata/AniDbSeriesProvider.cs:2851 | The label "Actor" has no surrounding white space. |
| People.ActorTypeParses | Jellyfin.Plugin.AniDB/Providers/AniDB/Metadata/AniDbSeriesProvider.cs:2849-2851 | The label `ParseActor` passes parses as `Actor`, so actors are built with that kind. |
| People.ResolveKind | Jellyfin.Plugin.AniDB/Providers/AniDB/Metadata/AniDbSeriesProvider.cs:2964-2966 | A label that names a kind gives that kind; else the role table's entry; else `Actor`; a missing label fails with the null-key exception of the table lookup. |
| People.CreatePerson | Jellyfin.Plugin.AniDB/Providers/AniDB/Metadata/AniDbSeriesProvider.cs:2960-2975 | The person gets the name in reversed word order, the resolved kind and the given role, and fails exactly when the label resolution does. |
| People.ReverseOneWord | Jellyfin.Plugin.AniDB/Providers/AniDB/Metadata/AniDbSeriesProvider.cs:2977-2980 | A one-word name is only trimmed. |
| People.ReverseWords | Jellyfin.Plugin.AniDB/Providers/AniDB/Metadata/AniDbSeriesProvider.cs:2977-2980 | With single spaces between words, the result is the words in reverse order joined by single spaces, again well spaced. |
| People.ReverseTwice | Jellyfin.Plugin.AniDB/Providers/AniDB/Metadata/AniDbSeriesProvider.cs:2977-2980 | Reversing the word order twice gives a well-spaced name back. |
| People.LastCharacterName | Jellyfin.Plugin.AniDB/Providers/AniDB/Metadata/AniDbSeriesProvider.cs:2836-2838 | The character name `ParseActor` keeps is that of the last `name` child, and none means there is no such child. |
| People.LastSeiyuuName | Jellyfin.Plugin.AniDB/Providers/AniDB/Metadata/AniDbSeriesProvider.cs:2840-2842 | The performer name `ParseActor` keeps is that of the last `seiyuu` child, and none means there is no such child. |
| People.ActorOf | Jellyfin.Plugin.AniDB/Providers/AniDB/Metadata/AniDbSeriesProvider.cs:2825-2853 | An actor is produced exactly when both the character name and the performer name are non-empty, with kind `Actor`, the character name as role, and as name the performer text, grave-replaced when configured, in reversed word order. |
| People.NonEmpty | Jellyfin.Plugin.AniDB/Providers/AniDB/Metadata/AniDbSeriesProvider.cs:3185-3189 | An attribute is kept exactly when it is present and non-empty. |
| People.FirstSeiyuu | Jellyfin.Plugin.AniDB/Providers/AniDB/Metadata/AniDbSeriesProvider.cs:3171 | The record of a character is built from its first `seiyuu` element, and none means there is none. |
| People.SeiyuuRecord | Jellyfin.Plugin.AniDB/Providers/AniDB/Metadata/AniDbSeriesProvider.cs:3171-3189 | A cached performer has the reversed name, the id when non-empty, and an image exactly when the picture is non-empty, with the AniDB picture-URL prefix. |
| People.CharacterList | Jellyfin.Plugin.AniDB/Providers/AniDB/Metadata/AniDbSeriesProvider.cs:3161-3197 | At most one record per character, and exactly one per character when each has a `seiyuu` element. |
| People.CharacterListSnoc | Jellyfin.Plugin.AniDB/Providers/AniDB/Metadata/AniDbSeriesProvider.cs:3169-3191 | One more character adds the record of its first seiyuu at the end, and nothing when it has none. |
| People.CharacterListMembership | Jellyfin.Plugin.AniDB/Providers/AniDB/Metadata/AniDbSeriesProvider.cs:3161-3197 | A cached performer is exactly the record of the first seiyuu of some character that has one. |
| People.CreatorsList | Jellyfin.Plugin.AniDB/Providers/AniDB/Metadata/AniDbSeriesProvider.cs:3199-3231 | At most one record per creator, and no creator record has an image. |
| People.CreatorsListSnoc | Jellyfin.Plugin.AniDB/Providers/AniDB/Metadata/AniDbSeriesProvider.cs:3207-3227 | One more creator adds its record (reversed name, id when non-empty) unless it is an "Animation Work". |
| SeriesParser.CharacterCast | Jellyfin.Plugin.AniDB/Providers/AniDB/Metadata/AniDbSeriesProvider.cs:2847-2852 | One character adds at most one person, and none exactly when no actor can be built. |
| SeriesParser.ActorPeopleMembership | Jellyfin.Plugin.AniDB/Providers/AniDB/Metadata/AniDbSeriesProvider.cs:2808-2823 | A person comes from the characters section exactly when some character yields that actor, and every such person is an actor with a non-empty role. |
| SeriesParser.ParseActor | Jellyfin.Plugin.AniDB/Providers/AniDB/Metadata/AniDbSeriesProvider.cs:2825-2853 | Reading a character appends exactly its cast entry and changes nothing else. |
| SeriesParser.ParseActors | Jellyfin.Plugin.AniDB/Providers/AniDB/Metadata/AniDbSeriesProvider.cs:2808-2823 | Reading the characters appends the actors of all characters in document order. |
| SeriesParser.StudioNames | Jellyfin.Plugin.AniDB/Providers/AniDB/Metadata/AniDbSeriesProvider.cs:2947-2950 | There are never more studios than creators. |
| SeriesParser.CreatorPeople | Jellyfin.Plugin.AniDB/Providers/AniDB/Metadata/AniDbSeriesProvider.cs:2951-2955 | There are never more creator people than creators. |
| SeriesParser.StudioNamesMembership | Jellyfin.Plugin.AniDB/Providers/AniDB/Metadata/AniDbSeriesProvider.cs:2942-2950 | A studio is added exactly when some `Animation Work` creator carries that name. |
| SeriesParser.CreatorPeopleMembership | Jellyfin.Plugin.AniDB/Providers/AniDB/Metadata/AniDbSeriesProvider.cs:2942-2955 | A creator person is added exactly when some labelled, non-studio creator yields it: reversed, grave-replaced name, resolved kind, no role. |
| SeriesParser.CreatorAppliedFailure | Jellyfin.Plugin.AniDB/Providers/AniDB/Metadata/AniDbSeriesProvider.cs:2944-2954 | A creator fails exactly when it has no type label, with the null-key exception. |
| SeriesParser.CreatorAppliedStudio | Jellyfin.Plugin.AniDB/Providers/AniDB/Metadata/AniDbSeriesProvider.cs:2947-2950 | An "Animation Work" creator appends its name, unreversed, to the studios and nothing else. |
| SeriesParser.CreatorAppliedPerson | Jellyfin.Plugin.AniDB/Providers/AniDB/Metadata/AniDbSeriesProvider.cs:2951-2955 | Any other labelled creator appends one person and nothing else. |
| SeriesParser.CreatorAppliedLabelled | Jellyfin.Plugin.AniDB/Providers/AniDB/Metadata/AniDbSeriesProvider.cs:2942-2955 | A labelled creator adds exactly its studio or its person. |
| SeriesParser.CreatorsFailure | Jellyfin.Plugin.AniDB/Providers/AniDB/Metadata/AniDbSeriesProvider.cs:2938-2958 | The creators section fails exactly when some creator has no type label. |
| SeriesParser.CreatorsLabelled | Jellyfin.Plugin.AniDB/Providers/AniDB/Metadata/AniDbSeriesProvider.cs:2938-2958 | With every creator labelled, the section appends exactly the studios and the people of its creators, in document order. |
| SeriesParser.ParseCreators | Jellyfin.Plugin.AniDB/Providers/AniDB/Metadata/AniDbSeriesProvider.cs:2938-2958 | The in-place loop leaves the result and the error exactly as the creators step function says. |
| SeriesParser.DescriptionBody | Jellyfin.Plugin.AniDB/Providers/AniDB/Metadata/AniDbSeriesProvider.cs:2580-2583 | The cleaned description has no white space at either end, no grave accent when replacement is on, and is no longer than the text. |
| SeriesParser.Overview | Jellyfin.Plugin.AniDB/Providers/AniDB/Metadata/AniDbSeriesProvider.cs:2582-2583 | The overview has no newline left. |
| SeriesParser.OverviewRoundTrip | Jellyfin.Plugin.AniDB/Providers/AniDB/Metadata/AniDbSeriesProvider.cs:2803-2806 | Turning each `<br>` of the overview back into a newline gives the link-stripped description back, when that has no `<`. |
| SeriesParser.OverviewPlainText | Jellyfin.Plugin.AniDB/Providers/AniDB/Metadata/AniDbSeriesProvider.cs:2580-2583 | A plain, already trimmed one-line description without a leading `*` or links is kept as it is. |
| SeriesParser.ParseDescription | Jellyfin.Plugin.AniDB/Providers/AniDB/Metadata/AniDbSeriesProvider.cs:2579-2585 | Reading the description sets exactly the overview. |
| Text.ReplaceNewLine | Jellyfin.Plugin.AniDB/Providers/AniDB/Metadata/AniDbSeriesProvider.cs:2803-2806 | No newline is left after the replacement. |
| Text.ReplaceNewLineRoundTrip | Jellyfin.Plugin.AniDB/Providers/AniDB/Metadata/AniDbSeriesProvider.cs:2803-2806 | Replacing `<br>` by newlines undoes the replacement on a text without `<`. |
| Text.ReplaceGraves | Jellyfin.Plugin.AniDB/Providers/AniDB/Metadata/AniDbSeriesProvider.cs:2583 | Grave replacement keeps the length, leaves no grave accent and keeps every other character. |
| Text.TrimStartChar | Jellyfin.Plugin.AniDB/Providers/AniDB/Metadata/AniDbSeriesProvider.cs:2581 | Removing the leading `*` run drops only asterisks and leaves a text that does not start with one. |
| Text.TrimEnds | Jellyfin.Plugin.AniDB/Providers/AniDB/Metadata/AniDbSeriesProvider.cs:2581 | A trimmed text has no white space at either end. |
| Text.Split | Jellyfin.Plugin.AniDB/Providers/AniDB/Metadata/AniDbSeriesProvider.cs:2979 | Splitting on spaces gives at least one part, none containing a space. |
| Text.JoinSplit | Jellyfin.Plugin.AniDB/Providers/AniDB/Metadata/AniDbSeriesProvider.cs:2979 | Joining the parts with single spaces gives the text back. |
| Text.ToLower | Jellyfin.Plugin.AniDB/Providers/AniDB/Metadata/AniDbSeriesProvider.cs:3157 | Lower-casing keeps the length and maps character by character, on ASCII letters only. |
| SeriesParser.SectionKeeps | Jellyfin.Plugin.AniDB/Providers/AniDB/Metadata/AniDbSeriesProvider.cs:2533-2626 | Each section keeps the AniDB id and the metadata flag, only appends people, and, with the corrected title parse, fails only with the null-key exception. |
| SeriesParser.SectionsKeep | Jellyfin.Plugin.AniDB/Providers/AniDB/Metadata/AniDbSeriesProvider.cs:2529-2628 | The same holds for the whole section sequence, with the corrected title parse. |
| SeriesParser.CreatorsKeep | Jellyfin.Plugin.AniDB/Providers/AniDB/Metadata/AniDbSeriesProvider.cs:2938-2958 | The creators section keeps the AniDB id and the metadata flag and only appends people. |
| SeriesParser.SeriesInfoKeeps | Jellyfin.Plugin.AniDB/Providers/AniDB/Metadata/AniDbSeriesProvider.cs:2512-2632 | Parsing the series file keeps the AniDB id and metadata flag, succeeds only on a readable, well-formed file, and fails only with the read error, the null-key exception or an XML error, with the corrected title parse. |
| SeriesParser.SeriesInfoCleansGenres | Jellyfin.Plugin.AniDB/Providers/AniDB/Metadata/AniDbSeriesProvider.cs:2631 | Once every section succeeds, the genre collaborator is applied to the final genre list. |
| SeriesParser.ParseSection | Jellyfin.Plugin.AniDB/Providers/AniDB/Metadata/AniDbSeriesProvider.cs:2533-2626 | Dispatching one section in place matches the section step function. |
| SeriesParser.FetchSeriesInfo | Jellyfin.Plugin.AniDB/Providers/AniDB/Metadata/AniDbSeriesProvider.cs:2512-2632 | The read loop over the series file leaves result and error exactly as the series-info step function says. |
| Cache.CacheValidityWindow | Jellyfin.Plugin.AniDB/Providers/AniDB/Metadata/AniDbSeriesProvider.cs:2483-2493 | The cached series file is valid exactly when it exists, is non-empty and its age is at most the maximum age in days (stale means strictly older). |
| Cache.DeleteXmlFiles | Jellyfin.Plugin.AniDB/Providers/AniDB/Metadata/AniDbSeriesProvider.cs:3020-3034 | Deleting removes exactly the `.xml` files below the series directory, at any depth, and keeps every other file unchanged. |
| Cache.CastPath | Jellyfin.Plugin.AniDB/Providers/AniDB/Metadata/AniDbSeriesProvider.cs:3155-3159 | A person's cache path exists exactly for a non-empty name, and then it is the path that `GetCastPath` builds from the (ASCII) lower-cased name. |
| Cache.CastPathCaseInsensitive | Jellyfin.Plugin.AniDB/Providers/AniDB/Metadata/AniDbSeriesProvider.cs:3157 | Two non-empty names, each taken as one path component, share a cache file exactly when they are equal ignoring ASCII case. |
| Cache.CastWritesAgree | Jellyfin.Plugin.AniDB/Providers/AniDB/Metadata/AniDbSeriesProvider.cs:3109-3129 | When every name is non-empty, the corrected cast writes are those of the code as written, with no exception. |
| Cache.CastWritesAsWrittenAbortsOnEmptyName | Jellyfin.Plugin.AniDB/Providers/AniDB/Metadata/AniDbSeriesProvider.cs:3158 | As written, an empty name first in the list raises index out of range before anything is written, although the next record has a valid path that the corrected writes fill. |
| Cache.CastWritesUntouched | Jellyfin.Plugin.AniDB/Providers/AniDB/Metadata/AniDbSeriesProvider.cs:3108-3129 | A file that no record maps to is left as it was. |
| Cache.CastWritesKeepExisting | Jellyfin.Plugin.AniDB/Providers/AniDB/Metadata/AniDbSeriesProvider.cs:3115 | An existing person file is kept when no record for it has an image. |
| Cache.CastWritesLastImage | Jellyfin.Plugin.AniDB/Providers/AniDB/Metadata/AniDbSeriesProvider.cs:3115-3122 | A person file ends with the last record for it that has an image. |
| Cache.CastWritesFirstWithoutImage | Jellyfin.Plugin.AniDB/Providers/AniDB/Metadata/AniDbSeriesProvider.cs:3115-3122 | A person file that did not exist ends with the first record for it when none has an image. |
| Cache.CastPathOutsideSeries | Jellyfin.Plugin.AniDB/Providers/AniDB/Metadata/AniDbSeriesProvider.cs:3155-3159 | No person file lies inside a series directory, with names taken as single path components. |
| Cache.CastWritesOutsideSeries | Jellyfin.Plugin.AniDB/Providers/AniDB/Metadata/AniDbSeriesProvider.cs:3108-3129 | The cast writes leave every file of the series directory unchanged, with names taken as single path components. |
| Cache.EpisodeWritesStayInside | Jellyfin.Plugin.AniDB/Providers/AniDB/Metadata/AniDbSeriesProvider.cs:3247-3256 | Episode writes, with each episode number taken as part of one path component, only add or replace `.xml` files directly inside the series directory, never `series.xml`, and delete nothing. |
| Cache.EpisodeWritesSaved | Jellyfin.Plugin.AniDB/Providers/AniDB/Metadata/AniDbSeriesProvider.cs:3036-3068 | Every episode with a number is saved verbatim under its file name, unless a later episode has the same name. |
| Cache.EpisodeWritesKeep | Jellyfin.Plugin.AniDB/Providers/AniDB/Metadata/AniDbSeriesProvider.cs:3036-3068 | A file that no episode names is left as it was. |
| Cache.EpisodeWriteEntries | Jellyfin.Plugin.AniDB/Providers/AniDB/Metadata/AniDbSeriesProvider.cs:3061-3062 | Every file the episode writes change holds text written at the current time. |
| Cache.DownloadFailureInvalidates | Jellyfin.Plugin.AniDB/Providers/AniDB/Metadata/AniDbSeriesProvider.cs:2990-3011 | A failed request or an error element in the body raises an exception. `series.xml` is absent after a failed request and empty after an error element, so the entry is invalid at any later time; no other `.xml` file is left in the series directory. |
| Cache.DownloadSuccessWrites | Jellyfin.Plugin.AniDB/Providers/AniDB/Metadata/AniDbSeriesProvider.cs:3001-3017 | Otherwise `series.xml` holds the scrubbed body written now, and, with the corrected cast loop, an exception follows exactly when the document is malformed. |
| Cache.DownloadRefreshesSeriesDirectory | Jellyfin.Plugin.AniDB/Providers/AniDB/Metadata/AniDbSeriesProvider.cs:2982-3018 | After a download, every `.xml` file of the series directory was written at this time (names and episode numbers as single path components). |
| Cache.SeriesDataOutcome | Jellyfin.Plugin.AniDB/Providers/AniDB/Metadata/AniDbSeriesProvider.cs:2495-2510 | A valid cache is used as it is; otherwise a download that raises nothing has written the scrubbed response into `series.xml` now. |
| Cache.FileText | Jellyfin.Plugin.AniDB/Providers/AniDB/Metadata/AniDbSeriesProvider.cs:2524 | Reading a file succeeds exactly when it exists with text content, and otherwise reports a missing file. |
| Cache.FileStore.DeleteXml | Jellyfin.Plugin.AniDB/Providers/AniDB/Metadata/AniDbSeriesProvider.cs:3020-3034 | The in-place deletion leaves the files as the deletion function says. |
| Cache.FileStore.ExtractEpisodes | Jellyfin.Plugin.AniDB/Providers/AniDB/Metadata/AniDbSeriesProvider.cs:3036-3068 | The episode loop adds the episode files, and reports an XML error for a malformed document. |
| Cache.FileStore.ExtractCast | Jellyfin.Plugin.AniDB/Providers/AniDB/Metadata/AniDbSeriesProvider.cs:3070-3130 | The cast loop writes the person files by the write rule, skipping empty names as the corrected loop does, and writes nothing for a malformed document. |
| Cache.FileStore.DownloadSeriesData | Jellyfin.Plugin.AniDB/Providers/AniDB/Metadata/AniDbSeriesProvider.cs:2982-3018 | The in-place download, in its order of deletion, truncation, scan, write and extraction, matches the download function. |
| Cache.FileStore.StoreAndExtract | Jellyfin.Plugin.AniDB/Providers/AniDB/Metadata/AniDbSeriesProvider.cs:3013-3017 | Writing the body and extracting episodes and cast matches the store function. |
| Cache.FileStore.GetSeriesData | Jellyfin.Plugin.AniDB/Providers/AniDB/Metadata/AniDbSeriesProvider.cs:2495-2510 | The in-place fetch downloads exactly when the cache is not valid, and returns the series file path or the download's exception. |
| Episodes.FirstEpisodeNumber | Jellyfin.Plugin.AniDB/Providers/AniDB/Metadata/AniDbSeriesProvider.cs:3277-3298 | The episode number is the first `epno` child that is not blank, and none means there is none. |
| Episodes.ParseEpisodeNumber | Jellyfin.Plugin.AniDB/Providers/AniDB/Metadata/AniDbSeriesProvider.cs:3258-3299 | The loop with an early return finds exactly the first non-blank `epno`. |
| Episodes.EpisodeFileNameInjective | Jellyfin.Plugin.AniDB/Providers/AniDB/Metadata/AniDbSeriesProvider.cs:3253 | Distinct episode numbers give distinct file names. |
| Episodes.EpisodeFileNameIsXml | Jellyfin.Plugin.AniDB/Providers/AniDB/Metadata/AniDbSeriesProvider.cs:3253 | An episode file name ends in `.xml`. |
| Episodes.EpisodeArtifact | Jellyfin.Plugin.AniDB/Providers/AniDB/Metadata/AniDbSeriesProvider.cs:3247-3256 | An episode is saved exactly when it has a non-blank number, under `episode-{number}.xml`, with its outer XML as content. |
| Document.FirstCharacterPicture | Jellyfin.Plugin.AniDB/Providers/AniDB/Metadata/AniDbImageProvider.cs:110-115 | The first `picture` child of a character, and none means there is none. |
| Document.FirstPicture | Jellyfin.Plugin.AniDB/Providers/AniDB/Metadata/AniDbImageProvider.cs:110-115 | The first `picture` element of the document, in document order, and none means there is none. |
| Entities.Series.AddStudio | Jellyfin.Plugin.AniDB/Providers/AniDB/Metadata/AniDbSeriesProvider.cs:2949 | Adding a studio appends it and changes nothing else (the host's de-duplication is not modelled). |
| Entities.MetadataResult.AddPerson | Jellyfin.Plugin.AniDB/Providers/AniDB/Metadata/AniDbSeriesProvider.cs:2953 | Adding a person appends it and changes nothing else (the host's merging is not modelled). |
| ApiErrors.DigitsEnd | Jellyfin.Plugin.AniDB/Providers/AniDB/Metadata/AniDbSeriesProvider.cs:63 | The end of the digit run: everything before it is a digit, and the next character is not one. |
| ApiErrors.LettersEnd | Jellyfin.Plugin.AniDB/Providers/AniDB/Metadata/AniDbSeriesProvider.cs:63 | The end of the letter run: everything before it is an ASCII letter, and the next character is not one. |
| ApiErrors.ErrorAtSound | Jellyfin.Plugin.AniDB/Providers/AniDB/Metadata/AniDbSeriesProvider.cs:63 | A match at a position is an error element with a digit code and a letter word at that position. |
| ApiErrors.ErrorAtComplete | Jellyfin.Plugin.AniDB/Providers/AniDB/Metadata/AniDbSeriesProvider.cs:63 | Every such error element at a position is found there. |
| ApiErrors.FindFrom | Jellyfin.Plugin.AniDB/Providers/AniDB/Metadata/AniDbSeriesProvider.cs:3007-3008 | The scan finds the leftmost error element from a position, and none means there is none at any later position. |
| ApiErrors.ScanResponseSpec | Jellyfin.Plugin.AniDB/Providers/AniDB/Metadata/AniDbSeriesProvider.cs:3004-3011 | After removing `&#x0;`, a body passes exactly when it holds no `<error code="digits">letters</error>`, and passes unchanged; otherwise the exception carries the leftmost such element. |
| ApiErrors.MessageTags | Jellyfin.Plugin.AniDB/Providers/AniDB/Metadata/AniDbSeriesProvider.cs:3010 | The exception message has `<` only where its error element opens and closes. |
| ApiErrors.BanMarkerIsElement | Jellyfin.Plugin.AniDB/Providers/AniDB/Metadata/AniDbSeriesProvider.cs:2335 | The ban marker is the error element with code 500 and word `banned`. |
| ApiErrors.BanMarkerPosition | Jellyfin.Plugin.AniDB/Providers/AniDB/Metadata/AniDbSeriesProvider.cs:2335 | The ban marker can only sit right after the message prefix. |
| ApiErrors.BanMarkerIff | Jellyfin.Plugin.AniDB/Providers/AniDB/Metadata/AniDbSeriesProvider.cs:2335 | An API error message contains the ban marker exactly when its element has code 500 and word `banned`. |
| BanPolicy.OnlyApiErrorsAreBans | Jellyfin.Plugin.AniDB/Providers/AniDB/Metadata/AniDbSeriesProvider.cs:2335 | No exception other than an AniDB error element counts as a ban. |
| BanPolicy.ApiErrorBan | Jellyfin.Plugin.AniDB/Providers/AniDB/Metadata/AniDbSeriesProvider.cs:2335 | An error element found in a body is a ban exactly when it is the ban marker itself. |
| BanPolicy.SeriesDataBanError | Jellyfin.Plugin.AniDB/Providers/AniDB/Metadata/AniDbSeriesProvider.cs:2329-2337 | Fetching the series data raises a ban exactly when the cache was not valid, the request got an answer, and the leftmost error element of the scrubbed answer is the ban marker. |
| BanWindow.NatToString | Jellyfin.Plugin.AniDB/Providers/AniDB/Metadata/AniDbSeriesProvider.cs:2355 | The number is written as at least one decimal digit. |
| BanWindow.NatToStringRoundTrip | Jellyfin.Plugin.AniDB/Providers/AniDB/Metadata/AniDbSeriesProvider.cs:2355 | Reading the decimal digits gives the number back. |
| BanWindow.LargestUnit | Jellyfin.Plugin.AniDB/Providers/AniDB/Metadata/AniDbSeriesProvider.cs:2352-2370 | The largest of day, hour, minute and second that divides the window. |
| BanWindow.BanWindowLargestUnit | Jellyfin.Plugin.AniDB/Providers/AniDB/Metadata/AniDbSeriesProvider.cs:2345-2371 | A positive window is written in its largest dividing unit, singular for 1 and plural otherwise. |
| BanWindow.BanWindowRoundTrip | Jellyfin.Plugin.AniDB/Providers/AniDB/Metadata/AniDbSeriesProvider.cs:2345-2371 | Reading the formatted window back gives the number of seconds back. |
| BanWindow.BanWindowNotPositive | Jellyfin.Plugin.AniDB/Providers/AniDB/Metadata/AniDbSeriesProvider.cs:2347-2350 | A window that is not positive is written "0 seconds". |
| BanWindow.BanWindowTwoHours | Jellyfin.Plugin.AniDB/Providers/AniDB/Metadata/AniDbSeriesProvider.cs:2358-2362 | The default of 2*60*60 seconds is written "2 hours". |
| BanWindow.BanWindowOneDay | Jellyfin.Plugin.AniDB/Providers/AniDB/Metadata/AniDbSeriesProvider.cs:2352-2356 | 86400 seconds is written "1 day". |
| BanWindow.BanWindowNinetySeconds | Jellyfin.Plugin.AniDB/Providers/AniDB/Metadata/AniDbSeriesProvider.cs:2370 | 90 seconds is written "90 seconds". |
| SeriesProvider.DesiredLanguage | Jellyfin.Plugin.AniDB/Providers/AniDB/Metadata/AniDbSeriesProvider.cs:2314 | The metadata language of the request, or "en" when it has none. |
| SeriesProvider.FallbackAppliedFlag | Jellyfin.Plugin.AniDB/Providers/AniDB/Metadata/AniDbSeriesProvider.cs:2373-2405 | After the fallback the metadata flag is still set exactly when it was set, fallback titles exist and they resolve to a title; only `Name` and `OriginalTitle` change and the people are kept. |
| SeriesProvider.BanGuardSkipsFetch | Jellyfin.Plugin.AniDB/Providers/AniDB/Metadata/AniDbSeriesProvider.cs:2317-2325 | With a recent ban and no valid cache the files are not touched, no ban is recorded, the result is the title fallback on the fresh result, and the response does not matter. |
| SeriesProvider.MarkBannedIff | Jellyfin.Plugin.AniDB/Providers/AniDB/Metadata/AniDbSeriesProvider.cs:2332-2338 | A new ban is recorded exactly when no recent ban blocked the request, the cache was not valid, the request got an answer and its leftmost error element is the ban marker. |
| SeriesProvider.HasMetadataIff | Jellyfin.Plugin.AniDB/Providers/AniDB/Metadata/AniDbSeriesProvider.cs:2310-2340 | The metadata flag ends false exactly when the fallback path was taken and it found no fallback titles or none that resolve. |
| SeriesProvider.FetchedKeeps | Jellyfin.Plugin.AniDB/Providers/AniDB/Metadata/AniDbSeriesProvider.cs:2329-2330 | Fetching and parsing keep the AniDB id and the metadata flag and only append people. |
| SeriesProvider.AniDbIdKept | Jellyfin.Plugin.AniDB/Providers/AniDB/Metadata/AniDbSeriesProvider.cs:2312 | Every result carries the requested AniDB id. |
| SeriesProvider.ValidCacheUntouched | Jellyfin.Plugin.AniDB/Providers/AniDB/Metadata/AniDbSeriesProvider.cs:2317-2330 | With a valid cache the files are not touched, no ban is recorded, and the response does not matter. |
| SeriesProvider.LookupId | Jellyfin.Plugin.AniDB/Providers/AniDB/Metadata/AniDbSeriesProvider.cs:2288-2296 | A recorded non-empty AniDB id is used; with no recorded id and a non-empty name, the id is the title index's lookup of that name when it is non-empty, else there is none; with neither id nor name there is none; any id found is non-empty. |
| SeriesProvider.ApplyFallbackTitles | Jellyfin.Plugin.AniDB/Providers/AniDB/Metadata/AniDbSeriesProvider.cs:2373-2405 | The fallback updates the result in place exactly as the fallback step function says. |
| SeriesProvider.GetMetadataForId | Jellyfin.Plugin.AniDB/Providers/AniDB/Metadata/AniDbSeriesProvider.cs:2305-2343 | The in-place orchestration (guard, fetch, parse, ban marking, fallback) leaves result, files and ban flag exactly as the orchestration function says, on a fresh result. |
| SeriesProvider.GetMetadata | Jellyfin.Plugin.AniDB/Providers/AniDB/Metadata/AniDbSeriesProvider.cs:2288-2303 | Without an id the result is empty and nothing happens; otherwise it is `GetMetadataForId` on the id found. |
| ImageProvider.Supports | Jellyfin.Plugin.AniDB/Providers/AniDB/Metadata/AniDbImageProvider.cs:88-91 | Images are offered exactly for series, seasons and movies. |
| ImageProvider.SupportedImages | Jellyfin.Plugin.AniDB/Providers/AniDB/Metadata/AniDbImageProvider.cs:83-86 | The only supported image type is `Primary`. |
| ImageProvider.ImageUrlIsFirstPicture | Jellyfin.Plugin.AniDB/Providers/AniDB/Metadata/AniDbImageProvider.cs:93-121 | A URL is found exactly when the file reads and has a `picture` element, and it is the AniDB prefix plus the first picture's content, never empty; failures are the read error or an XML error. |
| ImageProvider.ImagesGuard | Jellyfin.Plugin.AniDB/Providers/AniDB/Metadata/AniDbImageProvider.cs:53-54 | Without an id, or with a recent ban and no valid cache, the list is empty, nothing is fetched or marked, and the response does not matter. |
| ImageProvider.AtMostOneImage | Jellyfin.Plugin.AniDB/Providers/AniDB/Metadata/AniDbImageProvider.cs:58-67 | At most one image is returned, exactly when the guard passes, the fetch succeeds and the file has a picture, and then it is named "AniDB" with the first picture's URL. |
| ImageProvider.ImageFromDownload | Jellyfin.Plugin.AniDB/Providers/AniDB/Metadata/AniDbImageProvider.cs:58-67 | After a successful download the image is that of the downloaded document's first picture, and there is none without a picture. |
| ImageProvider.ImagesMarkBannedIff | Jellyfin.Plugin.AniDB/Providers/AniDB/Metadata/AniDbImageProvider.cs:70-75 | A ban is recorded exactly when the id is non-empty, no recent ban blocked the request, the cache was not valid and the answer's leftmost error element is the ban marker. |
| ImageProvider.ImagesSupported | Jellyfin.Plugin.AniDB/Providers/AniDB/Metadata/AniDbImageProvider.cs:63-67 | Every returned image has provider "AniDB" and a supported type. |
| ImageProvider.FindImageUrl | Jellyfin.Plugin.AniDB/Providers/AniDB/Metadata/AniDbImageProvider.cs:93-121 | The loop with an early return over the sections finds exactly the URL of the image-URL function. |
| ImageProvider.GetImages | Jellyfin.Plugin.AniDB/Providers/AniDB/Metadata/AniDbImageProvider.cs:49-81 | The in-place image fetch leaves list, files and ban flag exactly as the image function says, with one clock reading for the guard and the fetch. |
| ImageProvider.GetItemImages | Jellyfin.Plugin.AniDB/Providers/AniDB/Metadata/AniDbImageProvider.cs:43-47 | An item's images are those of its AniDB provider id, or of no id. |
| BanWindow.FormatBanWindow | Jellyfin.Plugin.AniDB/Providers/AniDB/Metadata/AniDbSeriesProvider.cs:2345-2371 | Writes a window in seconds in the largest of day, hour, minute and second that divides it, singular for 1; not positive gives "0 seconds". Its properties are the BanWindow lemmas above. |
| Titles.TitlesApplied | Jellyfin.Plugin.AniDB/Providers/AniDB/Metadata/AniDbSeriesProvider.cs:2909-2936 | Applies the corrected title resolution to `Name` and `OriginalTitle` and reports whether a title was found; see `Titles.TitlesAppliedFalseIff` and `Titles.TitlesAppliedFields`. |
| Titles.DefaultTiers | Jellyfin.Plugin.AniDB/Providers/AniDB/Metadata/AniDbSeriesProvider.cs:3358-3361 | The romaji fallback chain: the first x-jat main title, else the first main title, else the first title. |
| Titles.LanguageTiers | Jellyfin.Plugin.AniDB/Providers/AniDB/Metadata/AniDbSeriesProvider.cs:3335-3337 | The first title of the language of type main, else official, else synonym. |
| Cache.HasExistingSeriesData | Jellyfin.Plugin.AniDB/Providers/AniDB/Metadata/AniDbSeriesProvider.cs:2483-2493 | The cached `series.xml` exists, is not empty and is not older than the maximum age; see `Cache.CacheValidityWindow`. |
| Cache.SeriesData | Jellyfin.Plugin.AniDB/Providers/AniDB/Metadata/AniDbSeriesProvider.cs:2495-2510 | Uses a valid cache unchanged and otherwise downloads; see `Cache.SeriesDataOutcome`. |
| Cache.Download | Jellyfin.Plugin.AniDB/Providers/AniDB/Metadata/AniDbSeriesProvider.cs:2982-3018 | Deletes the `.xml` files of the series directory, then on an answer truncates `series.xml`, scrubs and scans the body, and on a clean body stores it; see the Download lemmas. |
| Cache.Store | Jellyfin.Plugin.AniDB/Providers/AniDB/Metadata/AniDbSeriesProvider.cs:3013-3017 | Writes the scrubbed body to `series.xml`, saves the episode files, and on a well-formed document writes the person files with the corrected cast loop. |
| Cache.EpisodeWrites | Jellyfin.Plugin.AniDB/Providers/AniDB/Metadata/AniDbSeriesProvider.cs:3055-3065 | Saves each episode in document order by `SaveEpsiodeXml`'s rule; see the EpisodeWrites lemmas. |
| Cache.GetCastPathAsWritten | Jellyfin.Plugin.AniDB/Providers/AniDB/Metadata/AniDbSeriesProvider.cs:3155-3159 | The person path as written: index out of range on an empty name, else the lower-cased name's first letter bucket and file. |
| Cache.CastWrites | Jellyfin.Plugin.AniDB/Providers/AniDB/Metadata/AniDbSeriesProvider.cs:3108-3129 | The corrected cast loop: each record with a path is written when its file is absent or the record has an image; see the CastWrites lemmas. |
| Cache.CastWritesAsWritten | Jellyfin.Plugin.AniDB/Providers/AniDB/Metadata/AniDbSeriesProvider.cs:3108-3129 | The cast loop as written, which stops with index out of range at the first empty name. |
| Tags.Candidates | Jellyfin.Plugin.AniDB/Providers/AniDB/Metadata/AniDbSeriesProvider.cs:2673-2712 | The genre candidates of all tags in document order; see `Tags.CandidatesMembership`. |
| Tags.SortByWeight | Jellyfin.Plugin.AniDB/Providers/AniDB/Metadata/AniDbSeriesProvider.cs:2714 | A stable insertion sort by weight, standing for LINQ `OrderBy`; see `Tags.SortByWeightSorted`, `Tags.SortByWeightPermutes` and `Tags.SortByWeightStable`. |
| Tags.GenreList | Jellyfin.Plugin.AniDB/Providers/AniDB/Metadata/AniDbSeriesProvider.cs:2714 | The names of the sorted candidates; see `Tags.GenreListMembership` and `Tags.GenreListOrder`. |
| Tags.TagsApplied | Jellyfin.Plugin.AniDB/Providers/AniDB/Metadata/AniDbSeriesProvider.cs:2669-2715 | Sets the genre list and, for a restricted tag, the adult rating; see `Tags.TagsRating`. |
| Resources.ImdbId | Jellyfin.Plugin.AniDB/Providers/AniDB/Metadata/AniDbSeriesProvider.cs:2756-2770 | The first identifier when it is non-empty; see `Resources.ImdbIdFirst`. |
| Resources.TheMovieDbId | Jellyfin.Plugin.AniDB/Providers/AniDB/Metadata/AniDbSeriesProvider.cs:2772-2796 | The first identifier when it is non-empty and the second is "tv" ignoring case; see the TheMovieDb lemmas. |
| Resources.ResourcesApplied | Jellyfin.Plugin.AniDB/Providers/AniDB/Metadata/AniDbSeriesProvider.cs:2717-2742 | Applies the resources in document order; see `Resources.ResourcesLastWins`. |
| People.ParseKind | Jellyfin.Plugin.AniDB/Providers/AniDB/Metadata/AniDbSeriesProvider.cs:2964 | The kind whose name is the trimmed label, as `Enum.TryParse` finds it. |
| People.ReverseNameOrder | Jellyfin.Plugin.AniDB/Providers/AniDB/Metadata/AniDbSeriesProvider.cs:2977-2980 | Splits on single spaces, reverses the words, prefixes each with a space and trims; see `People.ReverseWords` and `People.ReverseTwice`. |
| SeriesParser.CreatorApplied | Jellyfin.Plugin.AniDB/Providers/AniDB/Metadata/AniDbSeriesProvider.cs:2942-2955 | One creator: a studio for "Animation Work", else a person, and the null-key exception without a label; see the CreatorApplied lemmas. |
| SeriesParser.CreatorsApplied | Jellyfin.Plugin.AniDB/Providers/AniDB/Metadata/AniDbSeriesProvider.cs:2938-2958 | The creators in document order, stopping at the first failure; see `SeriesParser.CreatorsFailure` and `SeriesParser.CreatorsLabelled`. |
| SeriesParser.SectionApplied | Jellyfin.Plugin.AniDB/Providers/AniDB/Metadata/AniDbSeriesProvider.cs:2533-2626 | Dispatches one section to its parser, with the corrected title parse; see `SeriesParser.SectionKeeps`. |
| SeriesParser.SeriesInfo | Jellyfin.Plugin.AniDB/Providers/AniDB/Metadata/AniDbSeriesProvider.cs:2512-2632 | Reads the series file, applies the sections in order, stops at the first exception and cleans the genres at the end; see `SeriesParser.SeriesInfoKeeps`. |
| ApiErrors.FindError | Jellyfin.Plugin.AniDB/Providers/AniDB/Metadata/AniDbSeriesProvider.cs:3007-3008 | The leftmost `<error code="digits">letters</error>` element of a text; see `ApiErrors.FindFrom`. |
| ApiErrors.ScanResponse | Jellyfin.Plugin.AniDB/Providers/AniDB/Metadata/AniDbSeriesProvider.cs:3004-3011 | Removes `&#x0;` and raises the AniDB API error for the leftmost error element; see `ApiErrors.ScanResponseSpec`. |
| BanPolicy.BanBlocksFetch | Jellyfin.Plugin.AniDB/Providers/AniDB/Metadata/AniDbSeriesProvider.cs:2317-2320 | A recent ban and no valid cache; see `SeriesProvider.BanGuardSkipsFetch`. |
| BanPolicy.IsBanError | Jellyfin.Plugin.AniDB/Providers/AniDB/Metadata/AniDbSeriesProvider.cs:2335 | The message contains the ban marker by ordinal search; see `ApiErrors.BanMarkerIff`. |
| SeriesProvider.FallbackApplied | Jellyfin.Plugin.AniDB/Providers/AniDB/Metadata/AniDbSeriesProvider.cs:2373-2405 | Clears the metadata flag without fallback titles, else applies them with the original title as fallback and clears the flag when none applies; see `SeriesProvider.FallbackAppliedFlag`. |
| SeriesProvider.MetadataForId | Jellyfin.Plugin.AniDB/Providers/AniDB/Metadata/AniDbSeriesProvider.cs:2305-2343 | The orchestration: the ban guard, the fetch and parse, ban marking from the exception and the fallback; see the SeriesProvider lemmas. |
| ImageProvider.ImageUrl | Jellyfin.Plugin.AniDB/Providers/AniDB/Metadata/AniDbImageProvider.cs:93-121 | The prefixed URL of the first picture of the file; see `ImageProvider.ImageUrlIsFirstPicture`. |
| ImageProvider.Images | Jellyfin.Plugin.AniDB/Providers/AniDB/Metadata/AniDbImageProvider.cs:49-81 | The image provider's guard, fetch, URL and ban marking, with one clock reading for the guard and the fetch; see the Images lemmas. |

## Left out

- Rate limiting: `RequestLimiter` and the fixed `Task.Delay` before the request only space requests
  in time, across concurrent tasks; the model has no concurrency.
- Async, cancellation tokens and logging. `FormatBanWindow` is modelled by itself, because its only
  use is in a log message.
- `ParseRatings`: its decimal parsing and rounding are floating point.
- Start and end dates: .NET culture- and time-zone-dependent date parsing. Both sections are
  records without effect in the model.
- `StripAniDbLinks`: its .NET regular expression is not modelled; the link stripper is a parameter.
- `_typeMappings`: the 2200-line literal table is data. The role table is a map parameter.
- `ParseEpisodes`: it reads `epno` and does nothing with it, so it has no effect.
- `ParseOfficialUrlResource`: it reads the URL of a type "4" resource and drops it. Type "4" is
  treated like any other code.
- XML reader positioning: when elements follow each other with no white space between them, reading
  one element's content moves the reader to the next one, and the next `Read` skips it. The
  tokenised document does not contain this quirk.
- The reader's failure point: a malformed document is modelled as failing after all its sections,
  not in the middle of one.
- `ParseTitle` also collects elements named `anime`. In the model the candidates are already a list
  of titles.
- People.ParseKind: models .NET `Enum.TryParse` as an exact, case-sensitive name match after
  trimming. It does not model numeric labels or comma-separated flag lists, which AniDB role labels
  never are.
- Directories: `Directory.CreateDirectory`, and the `DirectoryNotFoundException` that
  `DeleteXmlFiles` ignores. The file map has no separate directories.
- Cache.FileStore.ExtractCast: an `IOException` while writing one person file, which the source
  ignores, is not modelled; every write succeeds.
- `GetPersonInfo`, `GetSearchResults`, `GetSearchResultsByName`, `MetadataToRemoteSearchResult`,
  `GetImageResponse` and the host interfaces: they are host glue outside the pipeline.
- The `Equals_check` title lookups, `AniDbTitleMatcher` and the HTTP client are not part of this
  model. Their results are parameters.
- SeriesProvider.GetMetadata: the empty `MetadataResult` returned without an id (its item is null)
  is modelled as a null result.
- ImageProvider.Images: takes a single clock reading for the ban guard and for `GetSeriesData`. The
  source reads `DateTime.UtcNow` in the guard (through `HasExistingSeriesData`) and again in
  `GetSeriesData`, so in the source the two validity checks could disagree on either side of the
  age limit.
- ImageProvider.GetImages: the same single clock reading as `ImageProvider.Images`, whose result it
  reproduces.
- SeriesProvider.MetadataForId: takes a single clock reading for the whole call. The source reads
  `DateTime.UtcNow` separately in the ban guard and in `GetSeriesData`, so in the source the two
  validity checks could disagree on either side of the age limit.
- SeriesProvider.MarkBannedIff, ImageProvider.ImagesMarkBannedIff and BanPolicy.SeriesDataBanError:
  assume that a request that fails raises `HttpFailure`. That is the HTTP client's exception,
  whose message cannot contain the ban marker.
- The title fallback inside the `catch` block uses the corrected title parse. The null-reference
  exception that the as-written parse raises there on an empty title list would escape
  `GetMetadataForId` (Findings, row 1).
- SeriesParser.SectionApplied: uses the corrected title parse. In the source, an empty `titles` section raises a null-reference exception (line 2897), which stops `FetchSeriesInfo`, so `GetMetadataForId` takes its fallback. In the model the section applies no title and the later sections are still read (Findings, row 1).
- SeriesParser.SectionKeeps: its exception set is that of the corrected title parse, so it leaves out the null-reference exception of an empty `titles` section (Findings, row 1).
- SeriesParser.SectionsKeep: the same: the as-written null reference, which would stop the remaining sections, is not in its exception set.
- SeriesParser.SeriesInfoKeeps: the same: `FetchSeriesInfo`'s null reference on an empty `titles` section is not among its exceptions.
- Cache.Store: uses the corrected cast loop. In the source, an empty performer or creator name raises index out of range (line 3158) after `series.xml` and the episode files are written, so the download fails. In the model that record is skipped (Findings, row 2).
- Cache.DownloadSuccessWrites: "an exception exactly when the document is malformed" holds for the corrected cast loop; the as-written index out of range on an empty name is left out (Findings, row 2).
- Cache.FileStore.ExtractCast: follows the corrected cast loop and skips an empty name, where the source stops with index out of range (Findings, row 2).
- Cache.FileStore.StoreAndExtract and Cache.FileStore.DownloadSeriesData inherit that correction from `Cache.Store`, and `SeriesProvider.MetadataForId` inherits both corrections.
- One malformed flag: the model has one `malformed` flag for the whole document, shared by every reader. In the source the streaming readers skip character checks (lines 2518, 3041, 3075, 3263), and only `&#x0;` is scrubbed (line 3005). The cast step, however, parses the `characters` and `creators` subtrees again with `XDocument.Parse` (lines 3163, 3201), which does check characters. So a body whose `characters` section holds `&#x1;` is written to `series.xml` and the episode files, and then fails in the cast step. The download fails, and the next call finds a valid cache and parses it fully. The model cannot represent such a document.
- Cache.Store: its cast step fails only when the whole document is malformed; the cast-only rejection by `XDocument.Parse` is not modelled (see "One malformed flag").
- Cache.FileStore.ExtractCast: writes every cast file whenever the document is not malformed; the source's `XDocument.Parse` of each subtree can throw on a character reference that the streaming readers accept (see "One malformed flag").
- Cache.DownloadSuccessWrites: "an exception exactly when the document is malformed" rests on the one shared flag; the cast-only rejection is not modelled (see "One malformed flag"). Cache.FileStore.StoreAndExtract, Cache.FileStore.DownloadSeriesData and SeriesProvider.MetadataForId inherit this from `Cache.Store`.
- Text.ToLower: lower-casing is modelled on ASCII only. The Unicode mapping of `ToLowerInvariant` is not modelled, so "Ōno" and "ōno" share a person file in the source but not in the model.
- Entities.Series.AddStudio: a plain append. The host skips a studio already present (ignoring case) and rejects an empty name; that host code is not part of this model.
- Entities.MetadataResult.AddPerson: a plain append. The host merges duplicate people; that host code is not part of this model.
- Document.FirstPicture: sees only a top-level `picture` element and the `picture` children of characters. `FindImageUrl` takes the first `picture` element at any depth; in AniDB's documents other elements carry `picurl`, not `picture`, so the two agree there.
- Paths: every person name, episode number and series id is one path component, and
  `Path.Combine` appends components. .NET's `Path.Combine` lets a `/` or `\` inside a name nest
  directories, resolves `.` and `..` through the file system, and restarts at a rooted name; none
  of this is modelled. In the source a seiyuu named `../anidb/series/1/series` with a picture
  overwrites series 1's `series.xml`, the names `b/./b` and `b/b` share one person file, and an
  `epno` of `1/x` makes the episode save throw `DirectoryNotFoundException` after `series.xml`
  was written.
- Cache.CastPath: builds the path from the ASCII lower-cased name only (see Text.ToLower), and
  takes the name as one path component; separators, `.`, `..` and rooted names
  are not modelled (see "Paths").
- Cache.CastPathCaseInsensitive: states case-insensitivity for ASCII case only (see Text.ToLower),
  and for names taken as single path components; in the source
  `b/./b` and `b/b` also share a file (see "Paths").
- Cache.CastPathOutsideSeries: holds because names are single path components; in the source a
  name such as `../anidb/series/1/series` reaches a series directory (see "Paths").
- Cache.CastWritesOutsideSeries: holds for names taken as single path components; in the source a
  traversing name overwrites a file of the series directory (see "Paths").
- Cache.EpisodeWritesStayInside: holds for episode numbers taken as part of one path component; in
  the source an `epno` with a `/` leaves the directory's top level or throws
  `DirectoryNotFoundException` (see "Paths").
- Cache.EpisodeWrites and Cache.FileStore.ExtractEpisodes: raise no exception for an `epno` with a
  separator; the source's `DirectoryNotFoundException` there is not modelled (see "Paths").
- Cache.DownloadSuccessWrites: "`series.xml` holds the scrubbed body" and "an exception exactly when
  the document is malformed" hold for names and episode numbers taken as single path components;
  a traversing person name or an `epno` with a separator breaks both in the source (see "Paths").
- Cache.DownloadRefreshesSeriesDirectory: holds for names taken as single path components; in the
  source a traversing person name can overwrite `series.xml` with a person record (see "Paths").
- Integer widths: `int` settings and weights are unbounded integers. `TimeSpan.FromDays(MaxCacheAge)`
  is days times ticks per day; its overflow for absurd ages is not modelled.

## Notes on the code

- Episode files: `ExtractEpisodes` saves every episode; unlike the tag filter, it applies no id suppression.
- Download order: the code opens `series.xml` for writing, which truncates it, before it scans the
  body for an error element. On an error, the cached document is left empty, not absent, and is
  therefore invalid. A failed request throws before the file is opened, so `series.xml` is absent
  after the deletion of the old `.xml` files (`Cache.DownloadFailureInvalidates`). The model follows that order.
- Title fields: "never both empty" holds only when the candidates have non-empty names
  (`Titles.TitlesAppliedWhenNamed`); a candidate with an empty name can resolve to an empty title.

## Findings

| source | as written | input that shows it | evidently intended | confidence | as-written member | corrected member |
|---|---|---|---|---|---|---|
| Jellyfin.Plugin.AniDB/Providers/AniDB/Metadata/AniDbSeriesProvider.cs:2897-2898 | `ParseTitle` reads `.Name` of the resolver's result, and the resolver returns null for an empty candidate list | a `titles` subtree or fallback title document with no `title` element: the parse raises a null-reference exception, and in the fallback inside the `catch` block that exception escapes `GetMetadataForId` | no titles means `ApplyTitlesAsync` returns false and the metadata flag is cleared | medium, not executed | Titles.ParseTitleThrowsOnEmpty | Titles.TitlesAppliedFalseIff |
| Jellyfin.Plugin.AniDB/Providers/AniDB/Metadata/AniDbSeriesProvider.cs:3155-3159 | `GetCastPath` indexes `name[0]` with no check for an empty name | a `seiyuu` or creator `name` element with empty text: `ExtractCast` raises index out of range, writes no later person file, and the download fails after `series.xml` was written | a record without a name is skipped and the others are written | medium, not executed | Cache.CastWritesAsWrittenAbortsOnEmptyName | Cache.CastPath |

In row 1, `Titles.ParseTitleAsWritten` models the parse as written. `Titles.ResolveTitles` and
`Titles.TitlesApplied` are the corrected parse, which the rest of the model uses. In row 2,
`Cache.GetCastPathAsWritten` and `Cache.CastWritesAsWritten` model the code as written.
`Cache.CastWrites` is the corrected write loop that `Cache.FileStore.ExtractCast` follows, and
`Cache.CastWritesAgree` proves the two agree whenever every name is non-empty.
