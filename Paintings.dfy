/** The paintings endpoints (Backend/MuseumAPI/Controllers/PaintingsController.cs).
    The read endpoints are Where/Skip/Take/Select pipelines over the tables
    and are modelled as functions; the write endpoints change the paintings
    table in place and are methods of a class that holds the two tables the
    controller's context gives it. The painting validator, whose source is
    not part of this model, is a parameter `validate` that returns the
    validator's error text ("" when there is no error); C#'s culture-dependent
    ToLower is a parameter `lower`. */
module Paintings {
  import opened Common
  import opened Schema

  /** The painting as the API sends and receives it: no owner, no artist object. */
  datatype PaintingDTO = PaintingDTO(
    id: Id,
    title: Option<string>,
    creationYear: int,
    height: real,
    subject: Option<string>,
    medium: Option<string>,
    description: Option<string>,
    artistId: Id)

  /** The artist as the API sends it: no owner, no paintings, no exhibitions. */
  datatype ArtistDTO = ArtistDTO(
    id: Id,
    firstName: Option<string>,
    lastName: Option<string>,
    birthDate: Option<Timestamp>,
    birthPlace: Option<string>,
    education: Option<string>,
    movement: Option<string>)

  /** The action results the controller returns. */
  datatype Response<T> =
    | Ok(body: T)
    | Created(id: Id, body: T)
    | NoContent
    | NotFound
    | BadRequest(message: Option<string>)

  function PaintingToDTO(p: Painting): PaintingDTO {
    PaintingDTO(p.id, p.title, p.creationYear, p.height, p.subject, p.medium, p.description, p.artistId)
  }

  function ArtistToDTO(a: Artist): ArtistDTO {
    ArtistDTO(a.id, a.firstName, a.lastName, a.birthDate, a.birthPlace, a.education, a.movement)
  }

  // ---------------------------------------------------------------------
  // Paged listing
  // ---------------------------------------------------------------------

  /** GET api/Paintings/{page}/{pageSize}. `page * pageSize` is an `int`
      product, evaluated with 32-bit wrap-around before it reaches Skip. */
  function GetPaintingPagination(paintings: seq<Painting>, page: int, pageSize: int): (r: seq<PaintingDTO>)
    ensures |r| <= if pageSize < 0 then 0 else pageSize
  {
    Select(Take(Skip(paintings, WrapInt32(page * pageSize)), pageSize), PaintingToDTO)
  }

  /** The listing with the offset computed without wrap-around: page `page`
      of `pageSize` rows. */
  function PagedListing(paintings: seq<Painting>, page: nat, pageSize: nat): (r: seq<PaintingDTO>)
    ensures |r| <= pageSize
    ensures page * pageSize >= |paintings| ==> r == []
    ensures forall i :: 0 <= i < |r| ==> r[i] in Select(paintings, PaintingToDTO)
  {
    PageIsSlice(paintings, page, pageSize);
    Select(Page(paintings, page, pageSize), PaintingToDTO)
  }

  /** While the offset fits in 32 bits the endpoint returns exactly the page:
      rows page*pageSize .. page*pageSize+pageSize-1, cut at the table's end. */
  lemma PaginationIsSlice(paintings: seq<Painting>, page: nat, pageSize: nat)
    requires IsInt32(page * pageSize)
    ensures GetPaintingPagination(paintings, page, pageSize) == PagedListing(paintings, page, pageSize)
    ensures GetPaintingPagination(paintings, page, pageSize) ==
            Select(paintings[Min(page * pageSize, |paintings|)..Min(page * pageSize + pageSize, |paintings|)], PaintingToDTO)
  {
    PageIsSlice(paintings, page, pageSize);
  }

  /** Reading pages 0 .. count-1 of one size one after the other gives the
      first count*pageSize paintings in table order, each once. */
  lemma PagedListingConcatenates(paintings: seq<Painting>, count: nat, pageSize: nat)
    ensures Select(Pages(paintings, count, pageSize), PaintingToDTO) ==
            Select(paintings[..Min(count * pageSize, |paintings|)], PaintingToDTO)
  {
    PagesArePrefix(paintings, count, pageSize);
  }

  /** The wrap-around shows: page 65536 of 65536 rows has offset 2^32, which
      wraps to 0, so the endpoint returns the first page of a non-empty
      table instead of nothing. */
  lemma PaginationOverflowRepeatsFirstPage(paintings: seq<Painting>)
    requires 0 < |paintings| < 0x1_0000_0000
    ensures PagedListing(paintings, 65536, 65536) == []
    ensures GetPaintingPagination(paintings, 65536, 65536) == PagedListing(paintings, 0, 65536)
    ensures GetPaintingPagination(paintings, 65536, 65536) != []
  {
    assert WrapInt32(65536 * 65536) == 0;
  }

  // ---------------------------------------------------------------------
  // Autocomplete
  // ---------------------------------------------------------------------

  /** Queries shorter than this are answered with NotFound. */
  const AutocompleteMinLength: int := 3
  /** At most this many suggestions are returned. */
  const AutocompleteLimit: int := 10

  predicate TitleMatches(lower: string -> string, query: string, p: Painting) {
    p.title.Some? && Contains(lower(p.title.value), lower(query))
  }

  function TitleFilter(lower: string -> string, query: string): Painting -> bool {
    p => TitleMatches(lower, query, p)
  }

  /** GET api/Paintings/autocomplete?query=...: paintings whose title,
      lower-cased, contains the lower-cased query. */
  function AutocompleteTitle(paintings: seq<Painting>, query: string, lower: string -> string)
    : (r: Response<seq<PaintingDTO>>)
    ensures r.NotFound? || r.Ok?
    ensures r.NotFound? <==> |query| < AutocompleteMinLength
    ensures r.Ok? ==> |r.body| <= AutocompleteLimit
    ensures r.Ok? ==> forall i :: 0 <= i < |r.body| ==>
              exists p :: p in paintings && TitleMatches(lower, query, p) && r.body[i] == PaintingToDTO(p)
    ensures r.Ok? && |r.body| < AutocompleteLimit ==>
              forall p :: p in paintings && TitleMatches(lower, query, p) ==> PaintingToDTO(p) in r.body
  {
    if |query| < AutocompleteMinLength then NotFound
    else
      var matches := Where(paintings, TitleFilter(lower, query));
      var r := Take(Select(matches, PaintingToDTO), AutocompleteLimit);
      assert forall i :: 0 <= i < |r| ==> r[i] == PaintingToDTO(matches[i]) && matches[i] in matches;
      Response.Ok(r)
  }

  /** The suggestions are the first matches in table order: paintings after
      the tenth match cannot change them. */
  lemma AutocompleteTitleIgnoresLaterRows(a: seq<Painting>, b: seq<Painting>, query: string, lower: string -> string)
    requires AutocompleteLimit <= |Where(a, TitleFilter(lower, query))|
    ensures AutocompleteTitle(a + b, query, lower) == AutocompleteTitle(a, query, lower)
  {
    var p := TitleFilter(lower, query);
    SelectTake(Where(a + b, p), PaintingToDTO, AutocompleteLimit);
    SelectTake(Where(a, p), PaintingToDTO, AutocompleteLimit);
    FirstMatchesIgnoreRest(a, b, p, AutocompleteLimit);
  }

  predicate FirstNameMatches(lower: string -> string, query: string, a: Artist) {
    a.firstName.Some? && Contains(lower(a.firstName.value), lower(query))
  }

  function FirstNameFilter(lower: string -> string, query: string): Artist -> bool {
    a => FirstNameMatches(lower, query, a)
  }

  /** GET api/Paintings/autocomplete-artist?query=...: artists whose first
      name, lower-cased, contains the lower-cased query. */
  function AutocompletePaintingArtist(artists: seq<Artist>, query: string, lower: string -> string)
    : (r: Response<seq<ArtistDTO>>)
    ensures r.NotFound? || r.Ok?
    ensures r.NotFound? <==> |query| < AutocompleteMinLength
    ensures r.Ok? ==> |r.body| <= AutocompleteLimit
    ensures r.Ok? ==> forall i :: 0 <= i < |r.body| ==>
              exists a :: a in artists && FirstNameMatches(lower, query, a) && r.body[i] == ArtistToDTO(a)
    ensures r.Ok? && |r.body| < AutocompleteLimit ==>
              forall a :: a in artists && FirstNameMatches(lower, query, a) ==> ArtistToDTO(a) in r.body
  {
    if |query| < AutocompleteMinLength then NotFound
    else
      var matches := Where(artists, FirstNameFilter(lower, query));
      var r := Take(Select(matches, ArtistToDTO), AutocompleteLimit);
      assert forall i :: 0 <= i < |r| ==> r[i] == ArtistToDTO(matches[i]) && matches[i] in matches;
      Response.Ok(r)
  }

  /** The artist suggestions are the first matches in table order. */
  lemma AutocompleteArtistIgnoresLaterRows(a: seq<Artist>, b: seq<Artist>, query: string, lower: string -> string)
    requires AutocompleteLimit <= |Where(a, FirstNameFilter(lower, query))|
    ensures AutocompletePaintingArtist(a + b, query, lower) == AutocompletePaintingArtist(a, query, lower)
  {
    var p := FirstNameFilter(lower, query);
    SelectTake(Where(a + b, p), ArtistToDTO, AutocompleteLimit);
    SelectTake(Where(a, p), ArtistToDTO, AutocompleteLimit);
    FirstMatchesIgnoreRest(a, b, p, AutocompleteLimit);
  }

  // ---------------------------------------------------------------------
  // Filter by creation year
  // ---------------------------------------------------------------------

  /** At most this many paintings are returned by the year filter. */
  const FilterLimit: int := 100

  function NewerThan(year: int): Painting -> bool {
    (p: Painting) => p.creationYear > year
  }

  /** GET api/Paintings/Filter?year=...: paintings created strictly after `year`. */
  function GetPaintingsByCreationYear(paintings: seq<Painting>, year: int): (r: seq<PaintingDTO>)
    ensures |r| <= FilterLimit
    ensures forall i :: 0 <= i < |r| ==>
              r[i].creationYear > year && exists p :: p in paintings && r[i] == PaintingToDTO(p)
    ensures |r| < FilterLimit ==>
              forall p :: p in paintings && p.creationYear > year ==> PaintingToDTO(p) in r
  {
    var matches := Take(Where(paintings, NewerThan(year)), FilterLimit);
    assert forall i :: 0 <= i < |matches| ==> matches[i] in Where(paintings, NewerThan(year));
    Select(matches, PaintingToDTO)
  }

  /** The filtered paintings are the first matches in table order. */
  lemma FilterIgnoresLaterRows(a: seq<Painting>, b: seq<Painting>, year: int)
    requires FilterLimit <= |Where(a, NewerThan(year))|
    ensures GetPaintingsByCreationYear(a + b, year) == GetPaintingsByCreationYear(a, year)
  {
    FirstMatchesIgnoreRest(a, b, NewerThan(year), FilterLimit);
  }

  // ---------------------------------------------------------------------
  // Writes
  // ---------------------------------------------------------------------

  /** The fields PUT copies from the request into the stored painting; the
      id and the owner stay. */
  function ApplyDTO(p: Painting, dto: PaintingDTO): Painting {
    p.(title := dto.title, creationYear := dto.creationYear, height := dto.height,
       subject := dto.subject, medium := dto.medium, description := dto.description,
       artistId := dto.artistId)
  }

  /** After a PUT the stored painting reads back as the request, under its own
      id, and keeps its owner; PUTting a painting's own projection changes
      nothing. */
  lemma ApplyDTOReadsBack(p: Painting, dto: PaintingDTO)
    ensures PaintingToDTO(ApplyDTO(p, dto)) == dto.(id := p.id)
    ensures ApplyDTO(p, dto).id == p.id && ApplyDTO(p, dto).userId == p.userId
    ensures ApplyDTO(p, PaintingToDTO(p)) == p
  {
  }

  /** Height of a painting created by POST: the entity initialiser does not
      set it, so it keeps the default of a C# double. */
  const UnsetHeight: real := 0.0

  /** The painting POST builds from a request: every field of the request but
      its id and its height, no owner, and the id the database assigns. */
  function NewPainting(id: Id, dto: PaintingDTO): Painting {
    Painting(id, dto.title, dto.creationYear, UnsetHeight, dto.subject, dto.medium,
             dto.description, dto.artistId, None)
  }

  /** The created painting reads back as the request except for its id and
      its height, which are the assigned id and 0. */
  lemma NewPaintingReadsBack(id: Id, dto: PaintingDTO)
    ensures PaintingToDTO(NewPainting(id, dto)) == dto.(id := id, height := UnsetHeight)
    ensures NewPainting(id, dto).userId.None?
  {
  }

  /** Every painting is by an artist in the artists table. */
  predicate ArtistsResolve(paintings: seq<Painting>, artists: seq<Artist>) {
    forall p :: p in paintings ==> p.artistId in ArtistIds(artists)
  }

  /** The controller over the context's Paintings and Artists sets. */
  class PaintingsController {
    var paintings: seq<Painting>
    var artists: seq<Artist>
    /** The next identity value the database hands out. */
    var nextId: Id

    ghost predicate Valid()
      reads this
    {
      UniqueBy(paintings, PaintingKey) && forall p :: p in paintings ==> p.id < nextId
    }

    constructor (paintings: seq<Painting>, artists: seq<Artist>, nextId: Id)
      requires UniqueBy(paintings, PaintingKey)
      requires forall p :: p in paintings ==> p.id < nextId
      ensures Valid()
      ensures this.paintings == paintings && this.artists == artists && this.nextId == nextId
    {
      this.paintings := paintings;
      this.artists := artists;
      this.nextId := nextId;
    }

    /** PUT api/Paintings/{id}. The checks run in this order and the first
        that fails decides the response; on every failure the table is left
        as it was. On success only the painting with key `id` changes. */
    method PutPainting(id: Id, dto: PaintingDTO, validate: PaintingDTO -> string) returns (resp: Response<()>)
      requires Valid()
      modifies this`paintings
      ensures Valid()
      ensures id != dto.id ==>
                resp == BadRequest(None) && paintings == old(paintings)
      ensures id == dto.id && id !in PaintingIds(old(paintings)) ==>
                resp == NotFound && paintings == old(paintings)
      ensures id == dto.id && id in PaintingIds(old(paintings)) && dto.artistId !in ArtistIds(artists) ==>
                resp == BadRequest(None) && paintings == old(paintings)
      ensures id == dto.id && id in PaintingIds(old(paintings)) && dto.artistId in ArtistIds(artists)
              && validate(dto) != "" ==>
                resp == BadRequest(Some("ERROR:\n" + validate(dto))) && paintings == old(paintings)
      ensures resp == NoContent <==>
                id == dto.id && id in PaintingIds(old(paintings)) && dto.artistId in ArtistIds(artists)
                && validate(dto) == ""
      ensures resp == NoContent ==>
                |paintings| == |old(paintings)|
                && forall i :: 0 <= i < |paintings| ==>
                     paintings[i] == if old(paintings)[i].id == id then ApplyDTO(old(paintings)[i], dto)
                                     else old(paintings)[i]
      ensures ArtistsResolve(old(paintings), artists) ==> ArtistsResolve(paintings, artists)
    {
      if id != dto.id {
        return BadRequest(None);
      }
      var found := IndexOfKey(paintings, PaintingKey, id);
      if found.None? {
        assert forall p :: p in paintings ==> PaintingKey(p) != id;
        return NotFound;
      }
      var i := found.value;
      assert paintings[i] in paintings;
      if dto.artistId !in ArtistIds(artists) {
        return BadRequest(None);
      }
      var validationErrors := validate(dto);
      if validationErrors != "" {
        return BadRequest(Some("ERROR:\n" + validationErrors));
      }
      ghost var before := paintings;
      paintings := paintings[i := ApplyDTO(paintings[i], dto)];
      forall j | 0 <= j < |paintings|
        ensures paintings[j] == if before[j].id == id then ApplyDTO(before[j], dto) else before[j]
      {
        if j > i {
          assert PaintingKey(before[i]) != PaintingKey(before[j]);
        }
      }
      forall p | p in paintings ensures p.id < nextId {
        var j :| 0 <= j < |paintings| && paintings[j] == p;
        assert before[j] in before;
      }
      resp := NoContent;
    }

    /** POST api/Paintings. A missing artist or a failing validation adds
        nothing; otherwise exactly one painting is appended under a fresh id
        and its projection is returned. */
    method PostPainting(dto: PaintingDTO, validate: PaintingDTO -> string) returns (resp: Response<PaintingDTO>)
      requires Valid()
      modifies this`paintings, this`nextId
      ensures Valid()
      ensures dto.artistId !in ArtistIds(artists) ==>
                resp == BadRequest(None) && paintings == old(paintings)
      ensures dto.artistId in ArtistIds(artists) && validate(dto) != "" ==>
                resp == BadRequest(Some("ERROR:\n" + validate(dto))) && paintings == old(paintings)
      ensures resp.Created? <==> dto.artistId in ArtistIds(artists) && validate(dto) == ""
      ensures resp.Created? ==>
                && old(nextId) !in PaintingIds(old(paintings))
                && paintings == old(paintings) + [NewPainting(old(nextId), dto)]
                && resp == Created(old(nextId), PaintingToDTO(NewPainting(old(nextId), dto)))
      ensures ArtistsResolve(old(paintings), artists) ==> ArtistsResolve(paintings, artists)
    {
      if dto.artistId !in ArtistIds(artists) {
        return BadRequest(None);
      }
      var validationErrors := validate(dto);
      if validationErrors != "" {
        return BadRequest(Some("ERROR:\n" + validationErrors));
      }
      var painting := NewPainting(nextId, dto);
      ghost var before := paintings;
      paintings := paintings + [painting];
      forall j, k | 0 <= j < k < |paintings| ensures PaintingKey(paintings[j]) != PaintingKey(paintings[k]) {
        if k == |paintings| - 1 {
          assert paintings[j] in before;
        } else {
          assert paintings[j] == before[j] && paintings[k] == before[k];
        }
      }
      nextId := nextId + 1;
      resp := Created(painting.id, PaintingToDTO(painting));
    }

    /** DELETE api/Paintings/{id}. An absent id leaves the table as it was;
        otherwise exactly the painting with that key is removed. */
    method DeletePainting(id: Id) returns (resp: Response<()>)
      requires Valid()
      modifies this`paintings
      ensures Valid()
      ensures resp == NotFound <==> id !in PaintingIds(old(paintings))
      ensures resp == NotFound ==> paintings == old(paintings)
      ensures resp == NoContent <==> id in PaintingIds(old(paintings))
      ensures resp == NoContent ==>
                && IndexOfKey(old(paintings), PaintingKey, id).Some?
                && var i := IndexOfKey(old(paintings), PaintingKey, id).value;
                   paintings == old(paintings)[..i] + old(paintings)[i + 1..]
      ensures resp == NoContent ==>
                |paintings| == |old(paintings)| - 1
                && forall p :: p in paintings <==> p in old(paintings) && p.id != id
      ensures ArtistsResolve(old(paintings), artists) ==> ArtistsResolve(paintings, artists)
    {
      var found := IndexOfKey(paintings, PaintingKey, id);
      if found.None? {
        assert forall p :: p in paintings ==> PaintingKey(p) != id;
        return NotFound;
      }
      var i := found.value;
      assert paintings[i] in paintings;
      ghost var before := paintings;
      paintings := paintings[..i] + paintings[i + 1..];
      assert forall j :: 0 <= j < |paintings| ==> paintings[j] == before[if j < i then j else j + 1];
      forall p | p in before && p.id != id ensures p in paintings {
        var j :| 0 <= j < |before| && before[j] == p;
        assert j != i;
        assert paintings[if j < i then j else j - 1] == p;
      }
      forall p | p in paintings ensures p in before && p.id != id {
        var j :| 0 <= j < |paintings| && paintings[j] == p;
        var k := if j < i then j else j + 1;
        assert before[k] == p && k != i;
        assert PaintingKey(before[Min(i, k)]) != PaintingKey(before[if i < k then k else i]);
      }
      forall j, k | 0 <= j < k < |paintings| ensures PaintingKey(paintings[j]) != PaintingKey(paintings[k]) {
        var j' := if j < i then j else j + 1;
        var k' := if k < i then k else k + 1;
        assert PaintingKey(before[j']) != PaintingKey(before[k']);
      }
      resp := NoContent;
    }
  }
}
