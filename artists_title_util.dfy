/** ArtistsTitleUtil: the older copy of ArtistsTitle's parser, kept as its own entry point. It
    compiles the same pattern and falls back to the same splits; the contracts below show that it
    agrees with ArtistsTitle.parse on every query. */
module ArtistsTitleUtil {
  import opened Jdk
  import AT = ArtistsTitle

  /** `extractDummy(query)`: the split on the first '-', else on spaces when that gives two
      pieces, else no artists and the whole query as the title. */
  function ExtractDummy(query: string): (at: AT.ArtistsTitle)
    ensures at == AT.ParseDummy(query)
  {
    var dash := Split2(query, '-');
    if |dash| == 2 then AT.Of(NonNull(Trim(dash[0])), NonNull(Trim(dash[1])))
    else
      var spaced := Split(query, ' ');
      if |spaced| == 2 then AT.Of(NonNull(Trim(spaced[0])), NonNull(Trim(spaced[1])))
      else AT.Of(Null, NonNull(query))
  }

  /** `extractArtistTitle(query)`: the pattern's trimmed groups when it matches and neither group
      is blank, otherwise extractDummy; this is exactly what ArtistsTitle.parse returns. */
  function ExtractArtistTitle(query: string): (at: AT.ArtistsTitle)
    ensures at == AT.Parse(query)
    ensures AT.Trimmed(at)
  {
    match AT.Match(query)
    case Of(g) =>
      var artists := query[g.start..g.artistsEnd];
      var title := query[g.titleStart..];
      if !IsBlank(artists) && !IsBlank(title) then AT.Of(NonNull(artists), NonNull(title))
      else ExtractDummy(query)
    case Empty => ExtractDummy(query)
  }
}
