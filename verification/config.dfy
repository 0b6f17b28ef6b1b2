/**
 * The configuration singleton: a `Configuration` built from an optional,
 * already-parsed configuration document, and a `ConfigStore` that holds the
 * process-wide cached instance (the `static $instance` of `get_instance`).
 */
module Config {

  import opened Options

  /** The top-level keys of the JSON configuration document the core reads.
      A key that is missing or JSON `null` is `None` (PHP `isset` is false). */
  datatype Document = Document(
    defaultLanguage: Option<string>,
    languages: Option<seq<string>>,
    includes: Option<seq<string>>,
    masterLayout: Option<string>)

  /** The argument of `get_instance`: no path at all, or a path whose reading
      and decoding produced `loaded` (`None` when the file is missing, cannot
      be read or does not decode to an object). */
  datatype ConfigSource = NoSource | Source(loaded: Option<Document>)

  /** The language used when the document names none. */
  const FallbackLanguage: string := "en"

  /** A constructed configuration; nothing changes its fields afterwards. */
  class Configuration {
    const defaultLanguage: string
    const languages: Option<seq<string>>
    const includes: Option<seq<string>>
    const masterLayout: Option<string>

    /** Copies every key of the loaded document, then sets `default_language`
        to "en" when the document did not set it. */
    constructor (loaded: Option<Document>)
      ensures BuiltFrom(loaded)
    {
      if loaded.Some? {
        languages := loaded.value.languages;
        includes := loaded.value.includes;
        masterLayout := loaded.value.masterLayout;
        if loaded.value.defaultLanguage.Some? {
          defaultLanguage := loaded.value.defaultLanguage.value;
        } else {
          defaultLanguage := FallbackLanguage;
        }
      } else {
        languages, includes, masterLayout := None, None, None;
        defaultLanguage := FallbackLanguage;
      }
    }

    /** This configuration holds exactly what the document gave, with
        `default_language` filled in when the document left it unset. */
    predicate BuiltFrom(loaded: Option<Document>) {
      && defaultLanguage == DefaultLanguageOf(loaded)
      && languages == (if loaded.Some? then loaded.value.languages else None)
      && includes == (if loaded.Some? then loaded.value.includes else None)
      && masterLayout == (if loaded.Some? then loaded.value.masterLayout else None)
    }
  }

  /** The `default_language` a configuration built from `loaded` ends up with:
      the document's own when it sets one, "en" otherwise. */
  function DefaultLanguageOf(loaded: Option<Document>): string {
    if loaded.Some? && loaded.value.defaultLanguage.Some? then loaded.value.defaultLanguage.value
    else FallbackLanguage
  }

  /** What a source yields when it is loaded: nothing for `NoSource`. */
  function Loaded(source: ConfigSource): Option<Document> {
    match source
    case NoSource => None
    case Source(loaded) => loaded
  }

  /** The holder of the cached instance. */
  class ConfigStore {
    var instance: Configuration?

    constructor ()
      ensures instance == null
    {
      instance := null;
    }

    /** Reuses the cached instance when there is one and no source is given;
        otherwise builds a new instance from the source and caches it. */
    method GetInstance(source: ConfigSource) returns (c: Configuration)
      modifies this
      ensures old(instance) != null && source.NoSource? ==> c == old(instance)
      ensures old(instance) == null || source.Source? ==> fresh(c) && c.BuiltFrom(Loaded(source))
      ensures instance == c
    {
      if instance == null || source.Source? {
        instance := new Configuration(Loaded(source));
      }
      c := instance;
    }
  }
}
