/**
 * What IconOverview derives from a single icon record: the CSS classes that
 * select the icon, the index and name labels of its table row, and the image
 * file it links to.
 *
 * The values IconOverview reads from Settings::get and I18n::l are fields of
 * a Config value, resolved before rendering.
 */
module IconClassifier {
  import opened Strings

  /** One record of the icon list. */
  datatype Icon = Icon(
    id: string,           // grouping key: consecutive records with equal id form one group
    idx: nat,             // Pokédex number; 0 stands for a missing number (PHP's empty())
    nameDisplay: string,
    kind: string,         // the record's 'type': "pkmn" or the type of another icon set
    iconSet: string,      // the record's 'set', used by non-Pokémon icons
    slug: string,
    version: string,      // "regular" or a shiny variant
    variation: string,    // form; "." means no form
    subvariation: string, // "female", "right", "flipped", ...
    file: string,
    isDuplicate: bool,
    originalFile: string, // 'original' -> 'file', used when isDuplicate holds
    w: nat,
    h: nat)

  /** The settings and localised strings the overview reads. */
  datatype Config = Config(
    cssBaseSelector: string,   // css_base_selector
    htmlNoSlugs: bool,         // html_no_slugs
    includePkmnNonshiny: bool, // include_pkmn_nonshiny
    includePkmnShiny: bool,    // include_pkmn_shiny
    emptyCell: string,         // placeholder shown for a missing index or name
    dexPrefix: string,         // dex_prefix
    githubBaseDir: string,     // github_base_dir
    iconUrlImgBase: string)    // icon_url_img_base

  const ShinyClass := "color-shiny"
  const FemaleClass := "gender-female"
  const RightClass := "dir-right"

  function FormClass(variation: string): string { "form-" + variation }

  /** Only shiny icons are built, so the fallback is always shiny and the
      shiny class is left out. */
  predicate OnlyShiny(cfg: Config) {
    !cfg.includePkmnNonshiny && cfg.includePkmnShiny
  }

  /** The place of an optional Pokémon class among the classes after the
      first two; 4 for a string that is none of them. */
  function TagRank(tag: string, variation: string): nat {
    if tag == ShinyClass then 0
    else if tag == FormClass(variation) then 1
    else if tag == FemaleClass then 2
    else if tag == RightClass then 3
    else 4
  }

  /** The optional classes of a Pokémon icon are four distinct strings. */
  lemma OptionalClassesDistinct(variation: string)
    ensures TagRank(ShinyClass, variation) == 0
    ensures TagRank(FormClass(variation), variation) == 1
    ensures TagRank(FemaleClass, variation) == 2
    ensures TagRank(RightClass, variation) == 3
  {
    assert FormClass(variation)[0] == 'f';
    assert ShinyClass[0] == 'c';
    assert FemaleClass[0] == 'g';
  }

  /** Rank order: every element is one of the optional classes, each later
      one ranked above the earlier ones. */
  predicate Ranked(tags: seq<string>, variation: string) {
    && (forall i :: 0 <= i < |tags| ==> TagRank(tags[i], variation) < 4)
    && (forall i, j :: 0 <= i < j < |tags| ==> TagRank(tags[i], variation) < TagRank(tags[j], variation))
  }

  /** tags, with tag appended when cond holds. */
  function AppendIf(tags: seq<string>, cond: bool, tag: string): seq<string> {
    if cond then tags + [tag] else tags
  }

  /** Appending a class ranked above all present keeps the rank order. */
  lemma AppendIfRanked(tags: seq<string>, cond: bool, tag: string, variation: string)
    requires Ranked(tags, variation) && TagRank(tag, variation) < 4
    requires forall i :: 0 <= i < |tags| ==> TagRank(tags[i], variation) < TagRank(tag, variation)
    ensures Ranked(AppendIf(tags, cond, tag), variation)
    ensures forall i :: 0 <= i < |AppendIf(tags, cond, tag)| ==>
              TagRank(AppendIf(tags, cond, tag)[i], variation) <= TagRank(tag, variation)
  {
  }

  /** The classes of a Pokémon icon after the first two, in the order
      get_icon_classes appends them. */
  function OptionalClasses(cfg: Config, icon: Icon): seq<string> {
    var withShiny := AppendIf([], icon.version != "regular" && !OnlyShiny(cfg), ShinyClass);
    var withForm := AppendIf(withShiny, icon.variation != ".", FormClass(icon.variation));
    var withGender := AppendIf(withForm, icon.subvariation == "female", FemaleClass);
    AppendIf(withGender, icon.subvariation == "right" || icon.subvariation == "flipped", RightClass)
  }

  /** A tag is in a ranked list exactly when some element has its rank. */
  lemma RankedMember(tags: seq<string>, tag: string, variation: string)
    requires Ranked(tags, variation) && TagRank(tag, variation) < 4
    ensures tag in tags <==> exists i :: 0 <= i < |tags| && TagRank(tags[i], variation) == TagRank(tag, variation)
  {
    OptionalClassesDistinct(variation);
    if i :| 0 <= i < |tags| && TagRank(tags[i], variation) == TagRank(tag, variation) {
      RankDetermines(tags[i], tag, variation);
    }
  }

  /** Among the optional classes, the rank identifies the class. */
  lemma RankDetermines(a: string, b: string, variation: string)
    requires TagRank(a, variation) < 4 && TagRank(a, variation) == TagRank(b, variation)
    ensures a == b
  {
  }

  /** The optional classes come in the fixed order shiny, form, gender,
      direction. */
  lemma OptionalClassesRanked(cfg: Config, icon: Icon)
    ensures Ranked(OptionalClasses(cfg, icon), icon.variation)
  {
    var v := icon.variation;
    OptionalClassesDistinct(v);
    var shiny := icon.version != "regular" && !OnlyShiny(cfg);
    var female := icon.subvariation == "female";
    var right := icon.subvariation == "right" || icon.subvariation == "flipped";
    var withShiny := AppendIf([], shiny, ShinyClass);
    AppendIfRanked([], shiny, ShinyClass, v);
    var withForm := AppendIf(withShiny, v != ".", FormClass(v));
    AppendIfRanked(withShiny, v != ".", FormClass(v), v);
    var withGender := AppendIf(withForm, female, FemaleClass);
    AppendIfRanked(withForm, female, FemaleClass, v);
    AppendIfRanked(withGender, right, RightClass, v);
  }

  /** Each optional class is present exactly when its condition holds, and
      they come in the fixed order shiny, form, gender, direction. */
  lemma OptionalClassesSpec(cfg: Config, icon: Icon)
    ensures var tags := OptionalClasses(cfg, icon);
      && (ShinyClass in tags <==> icon.version != "regular" && !OnlyShiny(cfg))
      && (FormClass(icon.variation) in tags <==> icon.variation != ".")
      && (FemaleClass in tags <==> icon.subvariation == "female")
      && (RightClass in tags <==> icon.subvariation == "right" || icon.subvariation == "flipped")
      && Ranked(tags, icon.variation)
  {
    var v := icon.variation;
    var tags := OptionalClasses(cfg, icon);
    OptionalClassesDistinct(v);
    OptionalClassesRanked(cfg, icon);
    RankedMember(tags, ShinyClass, v);
    RankedMember(tags, FormClass(v), v);
    RankedMember(tags, FemaleClass, v);
    RankedMember(tags, RightClass, v);
  }

  /** The classes get_icon_classes returns, as a value. */
  function IconClasses(cfg: Config, icon: Icon): seq<string> {
    if icon.kind == "pkmn" then
      [cfg.cssBaseSelector, "pkmn-" + (if cfg.htmlNoSlugs then icon.id else icon.slug)] + OptionalClasses(cfg, icon)
    else
      [cfg.cssBaseSelector, icon.iconSet + "-" + icon.slug]
  }

  /**
   * The classes of an icon: the base selector first; for an icon of another
   * set the set and slug; for a Pokémon icon the slug (or the id), then each
   * optional class exactly when its condition holds, in the fixed order
   * shiny, form, gender, direction.
   */
  lemma IconClassesSpec(cfg: Config, icon: Icon)
    ensures var classes := IconClasses(cfg, icon);
      && |classes| >= 2 && classes[0] == cfg.cssBaseSelector
      && (icon.kind != "pkmn" ==> classes == [cfg.cssBaseSelector, icon.iconSet + "-" + icon.slug])
      && (icon.kind == "pkmn" ==>
        && classes[1] == "pkmn-" + (if cfg.htmlNoSlugs then icon.id else icon.slug)
        && (ShinyClass in classes[2..] <==> icon.version != "regular" && !OnlyShiny(cfg))
        && (FormClass(icon.variation) in classes[2..] <==> icon.variation != ".")
        && (FemaleClass in classes[2..] <==> icon.subvariation == "female")
        && (RightClass in classes[2..] <==> icon.subvariation == "right" || icon.subvariation == "flipped")
        && Ranked(classes[2..], icon.variation))
  {
    if icon.kind == "pkmn" {
      OptionalClassesSpec(cfg, icon);
      assert IconClasses(cfg, icon)[2..] == OptionalClasses(cfg, icon);
    }
  }

  /** IconOverview::get_icon_classes. */
  method GetIconClasses(cfg: Config, icon: Icon) returns (classes: seq<string>)
    ensures classes == IconClasses(cfg, icon)
  {
    var onlyShiny := !cfg.includePkmnNonshiny && cfg.includePkmnShiny;
    classes := [cfg.cssBaseSelector];
    if icon.kind == "pkmn" {
      assert icon.kind + "-" == "pkmn-";
      if cfg.htmlNoSlugs {
        classes := classes + [icon.kind + "-" + icon.id];
      } else {
        classes := classes + [icon.kind + "-" + icon.slug];
      }
      ghost var head := classes;
      ghost var tags: seq<string> := [];
      assert classes == head + tags;
      if icon.version != "regular" && !onlyShiny {
        assert (head + tags) + [ShinyClass] == head + (tags + [ShinyClass]);
        classes := classes + [ShinyClass];
        tags := tags + [ShinyClass];
      }
      if icon.variation != "." {
        assert (head + tags) + [FormClass(icon.variation)] == head + (tags + [FormClass(icon.variation)]);
        classes := classes + ["form-" + icon.variation];
        tags := tags + [FormClass(icon.variation)];
      }
      if icon.subvariation == "female" {
        assert (head + tags) + [FemaleClass] == head + (tags + [FemaleClass]);
        classes := classes + [FemaleClass];
        tags := tags + [FemaleClass];
      }
      if icon.subvariation == "right" || icon.subvariation == "flipped" {
        assert (head + tags) + [RightClass] == head + (tags + [RightClass]);
        classes := classes + [RightClass];
        tags := tags + [RightClass];
      }
      assert tags == OptionalClasses(cfg, icon);
      assert head == [cfg.cssBaseSelector, "pkmn-" + (if cfg.htmlNoSlugs then icon.id else icon.slug)];
    } else {
      classes := classes + [icon.iconSet + "-" + icon.slug];
    }
  }

  /** IconOverview::get_icon_idx_str: the dex prefix and the number padded
      to three digits, or the placeholder when there is no number. */
  function IdxStr(cfg: Config, icon: Icon): (s: string) {
    if icon.idx == 0 then cfg.emptyCell else cfg.dexPrefix + ZeroPad(icon.idx, 3)
  }

  /** The index cell is the placeholder for an icon without an index, and
      otherwise the prefix followed by the index in decimal, zero-padded to
      at least three digits. */
  lemma IdxStrFormat(cfg: Config, icon: Icon)
    ensures var s := IdxStr(cfg, icon);
      && (icon.idx == 0 ==> s == cfg.emptyCell)
      && (icon.idx != 0 ==>
        && StartsWith(s, cfg.dexPrefix)
        && AllDigits(s[|cfg.dexPrefix|..])
        && DecimalValue(s[|cfg.dexPrefix|..]) == icon.idx
        && |s| - |cfg.dexPrefix| == Max(3, |NatToString(icon.idx)|))
      && (0 < icon.idx < 1000 ==> |s| == |cfg.dexPrefix| + 3)
  {
    if icon.idx != 0 {
      var s := IdxStr(cfg, icon);
      assert s[|cfg.dexPrefix|..] == ZeroPad(icon.idx, 3);
    }
  }

  /** IconOverview::get_icon_name_str: the display name, or the placeholder
      when it is empty in PHP's sense ("" or "0"). */
  function NameStr(cfg: Config, icon: Icon): (s: string)
    ensures PhpEmpty(icon.nameDisplay) ==> s == cfg.emptyCell
    ensures !PhpEmpty(icon.nameDisplay) ==> s == icon.nameDisplay
  {
    if icon.nameDisplay == "" || icon.nameDisplay == "0" then cfg.emptyCell else icon.nameDisplay
  }

  /** The file a row links to: a duplicate icon has no image of its own and
      uses its original's. */
  function ImageFile(icon: Icon): (f: string)
    ensures icon.isDuplicate ==> f == icon.originalFile
    ensures !icon.isDuplicate ==> f == icon.file
  {
    if icon.isDuplicate then icon.originalFile else icon.file
  }

  /** IconOverview::remove_dot_base: drops a leading "./". */
  function RemoveDotBase(path: string): (r: string)
    ensures StartsWith(path, "./") ==> path == "./" + r
    ensures !StartsWith(path, "./") ==> r == path
  {
    if StartsWith(path, "./") then path[2..] else path
  }

  /** Only one "./" is dropped: applying RemoveDotBase again changes the
      result exactly when it still starts with "./". */
  lemma RemoveDotBaseTwice(path: string)
    ensures RemoveDotBase(RemoveDotBase(path)) == RemoveDotBase(path)
            <==> !StartsWith(RemoveDotBase(path), "./")
  {
  }

  lemma RemoveDotBaseNotIdempotent()
    ensures RemoveDotBase("././a") == "./a"
    ensures RemoveDotBase(RemoveDotBase("././a")) == "a"
  {
    assert StartsWith("././a", "./");
    assert "././a"[2..] == "./a";
    assert StartsWith("./a", "./");
  }
}
