/// The record builder of the ingestion pipeline (lib/kmz-parser.ts, the
/// folder and placemark loops of `parseKMZFromBuffer`), starting from the
/// parsed KML folder tree: folders are looked up in the two folder tables,
/// placemarks without usable coordinates are skipped, descriptions are
/// parsed, and every record gets an id that no earlier record has.
module Kmz {
  import opened Strings
  import opened Types
  import opened Numbers
  import opened Ids
  import opened Description

  /** A KML child element as the XML parser hands it over: missing, a
      single object, or a list. */
  datatype OneOrMany<T> = Absent | One(item: T) | Many(items: seq<T>)

  /** `Array.isArray(x) ? x : [x]`, with a missing element read as no
      element at all. */
  function AsList<T>(x: OneOrMany<T>): (r: seq<T>)
    ensures x.One? ==> r == [x.item]
    ensures x.Many? ==> r == x.items
    ensures x.Absent? ==> r == []
  {
    match x
    case Absent => []
    case One(item) => [item]
    case Many(items) => items
  }

  /** A placemark: its name, its description if any, and the text of
      `Point.coordinates` if any. */
  datatype Placemark = Placemark(name: string, description: Option<string>, coordinates: Option<string>)

  datatype Folder = Folder(name: string, placemarks: OneOrMany<Placemark>)

  // ---------------------------------------------------------------------------
  // The folder tables

  /** `FOLDER_TO_CATEGORY`, read for its own keys only. */
  function FolderCategory(name: string): Option<PlaceCategory>
  {
    if name == "Halal restaurant" then Some(RestaurantPlace)
    else if name == "Partially Halal" then Some(RestaurantPlace)
    else if name == "Seafood restaurant" then Some(RestaurantPlace)
    else if name == "Muslim Friendly Restaurant" then Some(RestaurantPlace)
    else if name == "Vegetarian Restaurant" then Some(RestaurantPlace)
    else if name == "Masjid & Musalla" then Some(MasjidPlace)
    else if name == "Muslim Friendly Accommodation" then Some(AccommodationPlace)
    else if name == "Halal Mart" then Some(MartPlace)
    else None
  }

  /** `FOLDER_TO_HALAL_STATUS`, read for its own keys only. */
  function FolderStatus(name: string): Option<HalalStatus>
  {
    if name == "Halal restaurant" then Some(Halal)
    else if name == "Partially Halal" then Some(PartiallyHalal)
    else if name == "Seafood restaurant" then Some(Seafood)
    else if name == "Muslim Friendly Restaurant" then Some(MuslimFriendly)
    else if name == "Vegetarian Restaurant" then Some(Vegetarian)
    else if name == "Masjid & Musalla" then Some(Masjid)
    else if name == "Muslim Friendly Accommodation" then Some(Accommodation)
    else if name == "Halal Mart" then Some(Mart)
    else None
  }

  const FolderNames: set<string> := {
    "Halal restaurant", "Partially Halal", "Seafood restaurant", "Muslim Friendly Restaurant",
    "Vegetarian Restaurant", "Masjid & Musalla", "Muslim Friendly Accommodation", "Halal Mart"}

  /** Both tables have exactly the eight folder names as keys. */
  lemma FolderTablesShareKeys(name: string)
    ensures FolderCategory(name).Some? <==> name in FolderNames
    ensures FolderStatus(name).Some? <==> name in FolderNames
  {
  }

  /** `!category || category === "other"`: the folder is passed over. */
  predicate FolderSkipped(name: string)
  {
    FolderCategory(name).None? || FolderCategory(name) == Some(OtherPlace)
  }

  /** A folder is used exactly when its name is one of the eight table keys. */
  lemma FolderSkippedIffUnknown(name: string)
    ensures FolderSkipped(name) <==> name !in FolderNames
  {
    FolderTablesShareKeys(name);
  }

  /** `halalStatus || "muslim_friendly"`. */
  function StatusWithFallback(name: string): HalalStatus
  {
    match FolderStatus(name)
    case Some(s) => s
    case None => MuslimFriendly
  }

  /** For every folder that is not skipped the status comes from the status
      table: the fallback is never taken. */
  lemma FallbackUnreachable(name: string)
    requires !FolderSkipped(name)
    ensures FolderStatus(name) == Some(StatusWithFallback(name))
  {
    FolderTablesShareKeys(name);
  }

  // ---------------------------------------------------------------------------
  // The table read as written

  /** What `TABLE[name]` yields on an object literal: an own entry, a member
      inherited from `Object.prototype` (a function, or the prototype object
      for `__proto__`; all truthy), or `undefined`. */
  datatype TableRead = OwnEntry(category: PlaceCategory) | Inherited | Undefined

  const ObjectPrototypeKeys: set<string> := {
    "constructor", "hasOwnProperty", "isPrototypeOf", "propertyIsEnumerable",
    "toLocaleString", "toString", "valueOf", "__proto__",
    "__defineGetter__", "__defineSetter__", "__lookupGetter__", "__lookupSetter__"}

  function CategoryReadAsWritten(name: string): TableRead
  {
    match FolderCategory(name)
    case Some(c) => OwnEntry(c)
    case None => if name in ObjectPrototypeKeys then Inherited else Undefined
  }

  /** The skip test applied to the read as written: an inherited member is
      truthy and is not `"other"`. */
  predicate FolderSkippedAsWritten(name: string)
  {
    match CategoryReadAsWritten(name)
    case OwnEntry(c) => c == OtherPlace
    case Inherited => false
    case Undefined => true
  }

  /** A folder named after a member of `Object.prototype` is not skipped by
      the code as written, although its name is not a table key; the model
      skips it. */
  lemma InheritedFolderNameNotSkipped(name: string)
    requires name in ObjectPrototypeKeys
    ensures !FolderSkippedAsWritten(name) && FolderSkipped(name)
  {
    FolderTablesShareKeys(name);
    assert name !in FolderNames;
  }

  /** For every other name the two readings agree. */
  lemma SkipAgreesOffPrototype(name: string)
    requires name !in ObjectPrototypeKeys
    ensures FolderSkippedAsWritten(name) == FolderSkipped(name)
  {
  }

  // ---------------------------------------------------------------------------
  // The records the loops produce, before ids are assigned

  /** The three helpers the loops call. The builder is stated for any of
      them; `SourceHelpers` are the ones of the source. */
  datatype Helpers = Helpers(
    parseDescription: string -> ParsedDescription,
    parseCoordinates: string -> Option<Coordinates>,
    generateId: (string, real, real) -> string)

  const SourceHelpers: Helpers := Helpers(ParseDescription, ParseCoordinates, GenerateId)

  /** A placemark that the loops keep, with what its record is built from. */
  datatype Entry = Entry(folderName: string, category: PlaceCategory, status: HalalStatus,
                         placemark: Placemark, coords: Coordinates)

  /** `!placemark.Point?.coordinates` skips a missing or empty text, then
      `parseCoordinates` must succeed. */
  function PlacemarkCoordinates(p: Placemark, h: Helpers): Option<Coordinates>
  {
    if p.coordinates.None? || p.coordinates.value == [] then None
    else h.parseCoordinates(p.coordinates.value)
  }

  function PlacemarkEntries(folder: string, category: PlaceCategory, status: HalalStatus,
                            ps: seq<Placemark>, h: Helpers): (es: seq<Entry>)
  {
    if ps == [] then []
    else
      var rest := PlacemarkEntries(folder, category, status, ps[1..], h);
      match PlacemarkCoordinates(ps[0], h)
      case None => rest
      case Some(c) => [Entry(folder, category, status, ps[0], c)] + rest
  }

  function FolderEntries(f: Folder, h: Helpers): seq<Entry>
  {
    if FolderSkipped(f.name) then []
    else PlacemarkEntries(f.name, FolderCategory(f.name).value, StatusWithFallback(f.name), AsList(f.placemarks), h)
  }

  /** The kept placemarks of all folders, in folder-then-placemark order. */
  function Entries(folders: seq<Folder>, h: Helpers): seq<Entry>
  {
    if folders == [] then [] else FolderEntries(folders[0], h) + Entries(folders[1..], h)
  }

  /** `placemark.description || ""`. */
  function DescriptionText(p: Placemark): string
  {
    if p.description.Some? then p.description.value else ""
  }

  function BaseId(e: Entry, h: Helpers): string
  {
    h.generateId(e.placemark.name, e.coords.latitude, e.coords.longitude)
  }

  /** The record built for an entry once its id is known. */
  function Record(e: Entry, id: string, h: Helpers): Restaurant
  {
    var parsed := h.parseDescription(DescriptionText(e.placemark));
    Restaurant(id, e.placemark.name, e.category, e.status, e.coords.latitude, e.coords.longitude,
      parsed.cleaned_description, parsed.image_url, parsed.opening_hours, parsed.price_range,
      parsed.instagram_url, LocalKmz)
  }

  // ---------------------------------------------------------------------------
  // Id assignment

  /** The build stops where the source's collision loop would never exit. */
  datatype BuildError = IdLoopDiverges(baseId: string)

  datatype Result<T> = Ok(value: T) | Err(error: BuildError)

  /** Records for `entries`, given the ids already taken. */
  function AssignFrom(entries: seq<Entry>, seen: set<string>, h: Helpers): Result<seq<Restaurant>>
  {
    if entries == [] then Ok([])
    else
      var base := BaseId(entries[0], h);
      var k := FirstFree(base, seen, 1);
      if k == 0 then Err(IdLoopDiverges(base))
      else
        var id := Candidate(base, k);
        match AssignFrom(entries[1..], seen + {id}, h)
        case Err(e) => Err(e)
        case Ok(rest) => Ok([Record(entries[0], id, h)] + rest)
  }

  function Prepend(prefix: seq<Restaurant>, r: Result<seq<Restaurant>>): Result<seq<Restaurant>>
  {
    match r
    case Ok(rs) => Ok(prefix + rs)
    case Err(e) => Err(e)
  }

  /** The builder's result with the given helpers. */
  function BuildWith(folders: OneOrMany<Folder>, h: Helpers): Result<seq<Restaurant>>
  {
    AssignFrom(Entries(AsList(folders), h), {}, h)
  }

  /** What `parseKMZFromBuffer` returns for a parsed document. */
  function Build(folders: OneOrMany<Folder>): Result<seq<Restaurant>>
  {
    BuildWith(folders, SourceHelpers)
  }

  // ---------------------------------------------------------------------------
  // The builder

  lemma PrependAppend(a: seq<Restaurant>, b: seq<Restaurant>, r: Result<seq<Restaurant>>)
    ensures Prepend(a, Prepend(b, r)) == Prepend(a + b, r)
  {
    if r.Ok? {
      assert a + (b + r.value) == (a + b) + r.value;
    }
  }

  lemma PrependNil(r: Result<seq<Restaurant>>)
    ensures Prepend([], r) == r
  {
    if r.Ok? {
      assert [] + r.value == r.value;
    }
  }

  lemma EntriesCons(folders: seq<Folder>, i: nat, h: Helpers)
    requires i < |folders|
    ensures Entries(folders[i..], h) == FolderEntries(folders[i], h) + Entries(folders[i + 1..], h)
  {
    assert folders[i..][0] == folders[i] && folders[i..][1..] == folders[i + 1..];
  }

  lemma PlacemarkEntriesCons(folder: string, c: PlaceCategory, s: HalalStatus, ps: seq<Placemark>, j: nat, h: Helpers)
    requires j < |ps|
    ensures PlacemarkCoordinates(ps[j], h).None? ==>
      PlacemarkEntries(folder, c, s, ps[j..], h) == PlacemarkEntries(folder, c, s, ps[j + 1..], h)
    ensures PlacemarkCoordinates(ps[j], h).Some? ==>
      PlacemarkEntries(folder, c, s, ps[j..], h) ==
      [Entry(folder, c, s, ps[j], PlacemarkCoordinates(ps[j], h).value)] + PlacemarkEntries(folder, c, s, ps[j + 1..], h)
  {
    assert ps[j..][0] == ps[j] && ps[j..][1..] == ps[j + 1..];
  }

  lemma AssignFromCons(e: Entry, tail: seq<Entry>, seen: set<string>, h: Helpers)
    ensures AssignFrom([e] + tail, seen, h) ==
      var k := FirstFree(BaseId(e, h), seen, 1);
      if k == 0 then Err(IdLoopDiverges(BaseId(e, h)))
      else Prepend([Record(e, Candidate(BaseId(e, h), k), h)], AssignFrom(tail, seen + {Candidate(BaseId(e, h), k)}, h))
  {
    assert ([e] + tail)[1..] == tail;
  }

  /** The build of an absent `Folder` element is empty. */
  lemma BuildAbsent(h: Helpers)
    ensures BuildWith(Absent, h) == Ok([])
  {
    assert Entries([], h) == [];
  }

  /** One placemark whose coordinates parsed: its base id, the collision
      loop, and the record pushed onto `restaurants`. */
  method AddPlacemark(entry: Entry, ghost tail: seq<Entry>, restaurants: seq<Restaurant>, seenIds: set<string>,
                      h: Helpers)
    returns (err: Option<BuildError>, restaurants': seq<Restaurant>, seenIds': set<string>)
    ensures err.None? <==> FirstFree(BaseId(entry, h), seenIds, 1) != 0
    ensures err.Some? ==> err.value == IdLoopDiverges(BaseId(entry, h)) && restaurants' == restaurants && seenIds' == seenIds
    ensures err.None? ==>
      restaurants' == restaurants + [Record(entry, Candidate(BaseId(entry, h), FirstFree(BaseId(entry, h), seenIds, 1)), h)] &&
      seenIds' == seenIds + {Candidate(BaseId(entry, h), FirstFree(BaseId(entry, h), seenIds, 1))}
    ensures Prepend(restaurants, AssignFrom([entry] + tail, seenIds, h)) ==
      if err.Some? then Err(err.value) else Prepend(restaurants', AssignFrom(tail, seenIds', h))
  {
    AssignFromCons(entry, tail, seenIds, h);
    var parsedDesc := h.parseDescription(DescriptionText(entry.placemark));
    var baseId := h.generateId(entry.placemark.name, entry.coords.latitude, entry.coords.longitude);
    if FirstFree(baseId, seenIds, 1) == 0 {
      return Some(IdLoopDiverges(baseId)), restaurants, seenIds;
    }
    LoopExitsDecided(baseId, seenIds);
    var id := AssignId(baseId, seenIds);
    seenIds' := seenIds + {id};
    var restaurant := Restaurant(id, entry.placemark.name, entry.category, entry.status,
      entry.coords.latitude, entry.coords.longitude, parsedDesc.cleaned_description, parsedDesc.image_url,
      parsedDesc.opening_hours, parsedDesc.price_range, parsedDesc.instagram_url, LocalKmz);
    PrependAppend(restaurants, [restaurant], AssignFrom(tail, seenIds', h));
    restaurants' := restaurants + [restaurant];
    err := None;
  }

  /** One turn of the placemark loop: the placemark at `j` is passed over
      when its coordinates are missing, empty or rejected, and added
      otherwise. */
  method VisitPlacemark(folder: string, category: PlaceCategory, status: HalalStatus, placemarks: seq<Placemark>,
                        j: nat, ghost rest: seq<Entry>, restaurants: seq<Restaurant>, seenIds: set<string>, h: Helpers)
    returns (err: Option<BuildError>, restaurants': seq<Restaurant>, seenIds': set<string>)
    requires j < |placemarks|
    ensures PlacemarkCoordinates(placemarks[j], h).None? ==>
      err.None? && restaurants' == restaurants && seenIds' == seenIds
    ensures err.Some? ==> restaurants' == restaurants && seenIds' == seenIds
    ensures err.None? && PlacemarkCoordinates(placemarks[j], h).Some? ==>
      |restaurants'| == |restaurants| + 1 && restaurants'[..|restaurants|] == restaurants &&
      restaurants'[|restaurants|].id !in seenIds && seenIds' == seenIds + {restaurants'[|restaurants|].id}
    ensures Prepend(restaurants, AssignFrom(PlacemarkEntries(folder, category, status, placemarks[j..], h) + rest, seenIds, h)) ==
      if err.Some? then Err(err.value)
      else Prepend(restaurants', AssignFrom(PlacemarkEntries(folder, category, status, placemarks[j + 1..], h) + rest, seenIds', h))
  {
    err, restaurants', seenIds' := None, restaurants, seenIds;
    var placemark := placemarks[j];
    PlacemarkEntriesCons(folder, category, status, placemarks, j, h);
    ghost var tail := PlacemarkEntries(folder, category, status, placemarks[j + 1..], h) + rest;
    if placemark.coordinates.Some? && placemark.coordinates.value != [] {
      var coords := h.parseCoordinates(placemark.coordinates.value);
      if coords.Some? {
        var entry := Entry(folder, category, status, placemark, coords.value);
        assert PlacemarkEntries(folder, category, status, placemarks[j..], h) + rest == [entry] + tail;
        err, restaurants', seenIds' := AddPlacemark(entry, tail, restaurants, seenIds, h);
      }
    }
  }

  /** The placemark loop of one folder: placemarks without usable coordinates
      are passed over, the others are added in order. */
  method AddFolder(folder: Folder, ghost rest: seq<Entry>, restaurants: seq<Restaurant>, seenIds: set<string>,
                   h: Helpers)
    returns (err: Option<BuildError>, restaurants': seq<Restaurant>, seenIds': set<string>)
    ensures FolderSkipped(folder.name) ==> err.None? && restaurants' == restaurants && seenIds' == seenIds
    ensures |restaurants| <= |restaurants'| && restaurants'[..|restaurants|] == restaurants && seenIds <= seenIds'
    ensures Prepend(restaurants, AssignFrom(FolderEntries(folder, h) + rest, seenIds, h)) ==
      if err.Some? then Err(err.value) else Prepend(restaurants', AssignFrom(rest, seenIds', h))
  {
    err, restaurants', seenIds' := None, restaurants, seenIds;
    if FolderSkipped(folder.name) || folder.placemarks.Absent? {
      assert FolderEntries(folder, h) + rest == rest;
      return;
    }
    var category := FolderCategory(folder.name).value;
    var status := StatusWithFallback(folder.name);
    var placemarkArray := AsList(folder.placemarks);
    ghost var goal := Prepend(restaurants, AssignFrom(FolderEntries(folder, h) + rest, seenIds, h));
    assert placemarkArray[0..] == placemarkArray;
    var j := 0;
    while j < |placemarkArray|
      invariant j <= |placemarkArray| && err.None?
      invariant |restaurants| <= |restaurants'| && restaurants'[..|restaurants|] == restaurants && seenIds <= seenIds'
      invariant goal == Prepend(restaurants',
        AssignFrom(PlacemarkEntries(folder.name, category, status, placemarkArray[j..], h) + rest, seenIds', h))
    {
      err, restaurants', seenIds' := VisitPlacemark(folder.name, category, status, placemarkArray, j, rest,
                                                    restaurants', seenIds', h);
      if err.Some? {
        return;
      }
      j := j + 1;
    }
    assert placemarkArray[j..] == [];
    assert PlacemarkEntries(folder.name, category, status, placemarkArray[j..], h) + rest == rest;
  }

  /** The folder loop, with the collision loop for every record; the seen-id
      set is the set of ids handed out so far. */
  method BuildCatalogWith(folders: OneOrMany<Folder>, h: Helpers) returns (result: Result<seq<Restaurant>>)
    ensures result == BuildWith(folders, h)
  {
    var restaurants: seq<Restaurant> := [];
    var seenIds: set<string> := {};
    if folders.Absent? {
      BuildAbsent(h);
      return Ok(restaurants);
    }
    var folderArray := AsList(folders);
    var i := 0;
    assert folderArray[i..] == folderArray;
    PrependNil(BuildWith(folders, h));
    while i < |folderArray|
      invariant i <= |folderArray|
      invariant BuildWith(folders, h) == Prepend(restaurants, AssignFrom(Entries(folderArray[i..], h), seenIds, h))
    {
      EntriesCons(folderArray, i, h);
      var err;
      err, restaurants, seenIds := AddFolder(folderArray[i], Entries(folderArray[i + 1..], h), restaurants, seenIds, h);
      if err.Some? {
        return Err(err.value);
      }
      i := i + 1;
    }
    assert folderArray[i..] == [];
    assert restaurants + [] == restaurants;
    return Ok(restaurants);
  }

  /** `parseKMZFromBuffer` from the parsed document on, with the helpers of
      the source. */
  method BuildCatalog(folders: OneOrMany<Folder>) returns (result: Result<seq<Restaurant>>)
    ensures result == Build(folders)
  {
    result := BuildCatalogWith(folders, SourceHelpers);
  }

  // ---------------------------------------------------------------------------
  // What the build promises

  /** `id` is one of the ids the collision loop can reach from `baseId`. */
  ghost predicate IsCandidate(baseId: string, id: string)
  {
    exists m :: m >= 1 && id == Candidate(baseId, m)
  }

  /** A successful assignment yields one record per entry, in order, built
      from that entry; every id is a candidate of the entry's base id and
      outside `seen`, and no two records share an id. */
  lemma {:induction false} AssignFromRecords(entries: seq<Entry>, seen: set<string>, h: Helpers)
    requires AssignFrom(entries, seen, h).Ok?
    ensures var rs := AssignFrom(entries, seen, h).value;
      |rs| == |entries| &&
      (forall k :: 0 <= k < |rs| ==>
         rs[k] == Record(entries[k], rs[k].id, h) && rs[k].id !in seen && IsCandidate(BaseId(entries[k], h), rs[k].id)) &&
      (forall k, l :: 0 <= k < l < |rs| ==> rs[k].id != rs[l].id)
  {
    if entries != [] {
      var base := BaseId(entries[0], h);
      var id := Candidate(base, FirstFree(base, seen, 1));
      AssignFromRecords(entries[1..], seen + {id}, h);
      var rest := AssignFrom(entries[1..], seen + {id}, h).value;
      var rs := AssignFrom(entries, seen, h).value;
      assert rs == [Record(entries[0], id, h)] + rest;
      assert IsCandidate(base, id);
      forall k | 1 <= k < |rs|
        ensures rs[k] == rest[k - 1] && entries[k] == entries[1..][k - 1]
      {
      }
    }
  }

  /** A candidate of a valid base id stays within 50 characters of the id
      alphabet. */
  lemma CandidateShape(baseId: string, id: string)
    requires IsCandidate(baseId, id) && IsValidId(baseId)
    ensures |id| <= MaxIdLength && AllIdChars(id)
  {
    var m :| m >= 1 && id == Candidate(baseId, m);
  }

  /** The entries of a placemark list are its placemarks with usable
      coordinates, and nothing else. */
  lemma {:induction false} PlacemarkEntriesMembers(folder: string, c: PlaceCategory, s: HalalStatus, ps: seq<Placemark>,
                                                   h: Helpers, e: Entry)
    ensures e in PlacemarkEntries(folder, c, s, ps, h) <==>
      exists p :: p in ps && PlacemarkCoordinates(p, h).Some? && e == Entry(folder, c, s, p, PlacemarkCoordinates(p, h).value)
  {
    if ps != [] {
      PlacemarkEntriesMembers(folder, c, s, ps[1..], h, e);
      assert forall p :: p in ps <==> p == ps[0] || p in ps[1..];
    }
  }

  /** The entries of a document are exactly the placemarks with usable
      coordinates in folders named in the tables; each takes its category
      and status from the tables, never from the fallback. */
  lemma {:induction false} EntriesMembers(folders: seq<Folder>, h: Helpers, e: Entry)
    ensures e in Entries(folders, h) <==>
      exists f, p :: f in folders && p in AsList(f.placemarks) && f.name in FolderNames && PlacemarkCoordinates(p, h).Some? &&
        e == Entry(f.name, FolderCategory(f.name).value, FolderStatus(f.name).value, p, PlacemarkCoordinates(p, h).value)
  {
    if folders != [] {
      var f0 := folders[0];
      EntriesMembers(folders[1..], h, e);
      FolderSkippedIffUnknown(f0.name);
      if !FolderSkipped(f0.name) {
        FallbackUnreachable(f0.name);
        PlacemarkEntriesMembers(f0.name, FolderCategory(f0.name).value, StatusWithFallback(f0.name),
                                AsList(f0.placemarks), h, e);
      }
      assert forall f :: f in folders <==> f == f0 || f in folders[1..];
    }
  }

  /** The document's build: one record per kept placemark, in
      folder-then-placemark order, with ids that are pairwise distinct, at most
      50 characters long and drawn from `[a-z0-9-]`. */
  lemma BuildRecords(folders: OneOrMany<Folder>)
    requires Build(folders).Ok?
    ensures var es := Entries(AsList(folders), SourceHelpers);
      var rs := Build(folders).value;
      |rs| == |es| &&
      (forall k :: 0 <= k < |rs| ==>
         rs[k] == Record(es[k], rs[k].id, SourceHelpers) && |rs[k].id| <= MaxIdLength && AllIdChars(rs[k].id)) &&
      (forall k, l :: 0 <= k < l < |rs| ==> rs[k].id != rs[l].id)
  {
    var es := Entries(AsList(folders), SourceHelpers);
    AssignFromRecords(es, {}, SourceHelpers);
    var rs := Build(folders).value;
    forall k | 0 <= k < |rs|
      ensures |rs[k].id| <= MaxIdLength && AllIdChars(rs[k].id)
    {
      var e := es[k];
      assert BaseId(e, SourceHelpers) == GenerateId(e.placemark.name, e.coords.latitude, e.coords.longitude);
      CandidateShape(BaseId(e, SourceHelpers), rs[k].id);
    }
  }
}
