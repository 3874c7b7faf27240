/** Theme font resolution (src/components/theme-manager/theme.storage.ts):
    the table of available fonts, the default font family, `ThemeStore.getFont`
    and the decisions of `ThemeStore.loadFont`.

    The document's font set is the sequence of the family names of its loaded
    faces; whether a new face loads is a parameter, as is `getURL`'s prefix. */
module Theme {
  import opened Wrappers

  /** `IThemeFont`: a family and, for bundled fonts, the file it is loaded from. */
  datatype ThemeFont = ThemeFont(familyName: string, fileName: Option<string>)

  /** The argument of `getFont`/`loadFont`: a family name or a font object. */
  datatype FontRef = FamilyName(name: string) | FontObject(font: ThemeFont)

  /** `availableFonts`: five bundled fonts, then three system fonts without a file. */
  const AvailableFonts: seq<ThemeFont> := [
    ThemeFont("Roboto", Some("Roboto-Regular.ttf")),
    ThemeFont("Lato", Some("Lato-Regular.ttf")),
    ThemeFont("Open Sans", Some("OpenSans-Regular.ttf")),
    ThemeFont("Raleway", Some("Raleway-Regular.ttf")),
    ThemeFont("Lobster", Some("Lobster-Regular.ttf")),
    ThemeFont("Arial", None),
    ThemeFont("Helvetica Neue", None),
    ThemeFont("Times New Roman", None)
  ]

  /** `iconsFont`, the first font `init` loads. */
  const IconsFont: ThemeFont := ThemeFont("Material Icons", Some("MaterialIcons-Regular.ttf"))

  /** The `fontFamily` of the theme storage's default value. */
  const DefaultFontFamily: string := "Open Sans"

  /** `fonts.find(({familyName}) => name === familyName)`: the first font of that family. */
  function FindFont(fonts: seq<ThemeFont>, name: string): (r: Option<ThemeFont>)
    decreases |fonts|
    ensures r.None? <==> forall i :: 0 <= i < |fonts| ==> fonts[i].familyName != name
    ensures r.Some? ==> exists i :: 0 <= i < |fonts| && fonts[i] == r.value &&
                                    forall k :: 0 <= k < i ==> fonts[k].familyName != name
    ensures r.Some? ==> r.value.familyName == name
  {
    if fonts == [] then None
    else if fonts[0].familyName == name then Some(fonts[0])
    else
      var r := FindFont(fonts[1..], name);
      assert r.Some? ==> exists i :: 0 <= i < |fonts| && fonts[i] == r.value &&
                                     forall k :: 0 <= k < i ==> fonts[k].familyName != name by {
        if r.Some? {
          var i :| 0 <= i < |fonts[1..]| && fonts[1..][i] == r.value &&
                   forall k :: 0 <= k < i ==> fonts[1..][k].familyName != name;
          assert fonts[i + 1] == r.value;
          forall k | 0 <= k < i + 1
            ensures fonts[k].familyName != name
          {
            if k > 0 {
              assert fonts[k] == fonts[1..][k - 1];
            }
          }
        }
      }
      r
  }

  /** The search returns the font at the first index of the family. */
  lemma FindFontAt(fonts: seq<ThemeFont>, name: string, i: nat)
    requires i < |fonts| && fonts[i].familyName == name
    requires forall k :: 0 <= k < i ==> fonts[k].familyName != name
    ensures FindFont(fonts, name) == Some(fonts[i])
  {
    var r := FindFont(fonts, name);
    var j :| 0 <= j < |fonts| && fonts[j] == r.value &&
             forall k :: 0 <= k < j ==> fonts[k].familyName != name;
    assert j == i;
  }

  /** `getFont(font)`: a font object is returned as it is; a name is looked up. */
  function GetFont(fonts: seq<ThemeFont>, font: FontRef): (r: Option<ThemeFont>)
    ensures font.FontObject? ==> r == Some(font.font)
    ensures font.FamilyName? ==> r == FindFont(fonts, font.name)
  {
    match font
    case FontObject(f) => Some(f)
    case FamilyName(name) => FindFont(fonts, name)
  }

  /** The relative URL of a font file: a missing `fileName` prints as "undefined". */
  function FontPath(fileName: Option<string>): string {
    "assets/fonts/" + fileName.GetOr("undefined")
  }

  /** How a `loadFont` call ends. */
  datatype LoadOutcome =
    | Rejected                                 // `getFont` found nothing: destructuring throws before the try
    | Skipped                                  // a face of that family is already in the document
    | Added(familyName: string, path: string)  // a new face was loaded from `path` and added
    | Failed(familyName: string, path: string) // loading from `path` failed and was logged

  datatype LoadStep = LoadStep(outcome: LoadOutcome, faces: seq<string>)

  /** Some loaded face has this family name. */
  predicate IsLoaded(faces: seq<string>, familyName: string) {
    exists i :: 0 <= i < |faces| && faces[i] == familyName
  }

  /** `loadFont(font)` on a document whose faces have the family names `faces`;
      `load(familyName, path)` says whether a new face from that file loads. */
  function LoadFont(fonts: seq<ThemeFont>, font: FontRef, faces: seq<string>, load: (string, string) -> bool): (r: LoadStep)
    ensures GetFont(fonts, font).None? ==> r == LoadStep(Rejected, faces)
    ensures GetFont(fonts, font).Some? && IsLoaded(faces, GetFont(fonts, font).value.familyName) ==>
              r == LoadStep(Skipped, faces)
    ensures r.outcome.Added? ==> r.faces == faces + [r.outcome.familyName] && !IsLoaded(faces, r.outcome.familyName)
    ensures !r.outcome.Added? ==> r.faces == faces
    ensures r.outcome.Added? || r.outcome.Failed? ==>
              GetFont(fonts, font).Some? &&
              r.outcome.familyName == GetFont(fonts, font).value.familyName &&
              r.outcome.path == FontPath(GetFont(fonts, font).value.fileName)
    ensures GetFont(fonts, font).Some? && !IsLoaded(faces, GetFont(fonts, font).value.familyName) ==>
              var f := GetFont(fonts, font).value;
              (r.outcome.Added? || r.outcome.Failed?) &&
              (r.outcome.Added? <==> load(f.familyName, FontPath(f.fileName)))
  {
    match GetFont(fonts, font)
    case None => LoadStep(Rejected, faces)
    case Some(f) =>
      if IsLoaded(faces, f.familyName) then LoadStep(Skipped, faces)
      else
        var path := FontPath(f.fileName);
        if load(f.familyName, path) then LoadStep(Added(f.familyName, path), faces + [f.familyName])
        else LoadStep(Failed(f.familyName, path), faces)
  }

  /** Once a font has been added, loading it again is skipped, whatever loading would do. */
  lemma LoadFontTwiceSkips(fonts: seq<ThemeFont>, font: FontRef, faces: seq<string>,
                           load: (string, string) -> bool, load': (string, string) -> bool)
    requires LoadFont(fonts, font, faces, load).outcome.Added?
    ensures var first := LoadFont(fonts, font, faces, load);
            LoadFont(fonts, font, first.faces, load') == LoadStep(Skipped, first.faces)
  {
    var first := LoadFont(fonts, font, faces, load);
    var name := GetFont(fonts, font).value.familyName;
    assert first.faces[|faces|] == name;
  }

  /** A name outside the table is rejected before anything is loaded. */
  lemma UnknownFamilyRejected(name: string, faces: seq<string>, load: (string, string) -> bool)
    requires forall i :: 0 <= i < |AvailableFonts| ==> AvailableFonts[i].familyName != name
    ensures GetFont(AvailableFonts, FamilyName(name)) == None
    ensures LoadFont(AvailableFonts, FamilyName(name), faces, load) == LoadStep(Rejected, faces)
  {
  }

  /** The default family resolves to its bundled font. */
  lemma DefaultFontResolves()
    ensures GetFont(AvailableFonts, FamilyName(DefaultFontFamily)) == Some(ThemeFont("Open Sans", Some("OpenSans-Regular.ttf")))
  {
    FindFontAt(AvailableFonts, "Open Sans", 2);
  }

  /** Unless already present, the default family is loaded from "assets/fonts/OpenSans-Regular.ttf". */
  lemma DefaultFontPath(faces: seq<string>, load: (string, string) -> bool)
    requires !IsLoaded(faces, "Open Sans")
    ensures LoadFont(AvailableFonts, FamilyName("Open Sans"), faces, load).outcome
              in {Added("Open Sans", "assets/fonts/OpenSans-Regular.ttf"), Failed("Open Sans", "assets/fonts/OpenSans-Regular.ttf")}
  {
    DefaultFontResolves();
    OpenSansPath();
  }

  lemma OpenSansPath()
    ensures FontPath(Some("OpenSans-Regular.ttf")) == "assets/fonts/OpenSans-Regular.ttf"
  {
  }

  /** A system font not present in the document is requested from the path of a missing
      file name, which `UndefinedPath` spells out as "assets/fonts/undefined". */
  lemma SystemFontPath(faces: seq<string>, load: (string, string) -> bool)
    requires !IsLoaded(faces, "Arial")
    ensures var o := LoadFont(AvailableFonts, FamilyName("Arial"), faces, load).outcome;
            (o.Added? || o.Failed?) && o.familyName == "Arial" && o.path == FontPath(None)
  {
    ArialResolves();
  }

  lemma ArialResolves()
    ensures GetFont(AvailableFonts, FamilyName("Arial")) == Some(ThemeFont("Arial", None))
  {
    FindFontAt(AvailableFonts, "Arial", 5);
  }

  /** The icons font is passed as an object, so it loads whatever the table holds:
      unless present, its face is requested from its own file. */
  lemma IconsFontLoad(fonts: seq<ThemeFont>, faces: seq<string>, load: (string, string) -> bool)
    requires !IsLoaded(faces, IconsFont.familyName)
    ensures var o := LoadFont(fonts, FontObject(IconsFont), faces, load).outcome;
            (o.Added? || o.Failed?) && o.familyName == "Material Icons" && o.path == FontPath(IconsFont.fileName)
  {
  }

  lemma IconsFontPath()
    ensures FontPath(IconsFont.fileName) == "assets/fonts/MaterialIcons-Regular.ttf"
  {
  }

  /** A missing file name prints as "undefined" in the font URL. */
  lemma UndefinedPath()
    ensures FontPath(None) == "assets/fonts/undefined"
  {
  }
}
