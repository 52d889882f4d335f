/** Values shared by the whole model: the build descriptor of `src/lib.rs`, the
    configuration of `src/config.rs`, terminal input events, and the background
    tasks that the key handlers launch. */
module Types {

  datatype Option<+T> = None | Some(value: T)

  datatype Result<+T, +E> = Ok(value: T) | Err(error: E)

  /** One Blender build: version label, release channel, branch, platform and
      download link (`BlenderVersion` in src/lib.rs). */
  datatype BlenderVersion = BlenderVersion(
    version: string,
    release: string,
    branch: string,
    os: string,
    link: string)

  /** The key of the de-duplication in `filter_latest`. */
  function BuildKey(v: BlenderVersion): (string, string)
  {
    (v.version, v.release)
  }

  /** The application configuration (`Config` in src/config.rs). */
  datatype Config = Config(versions: seq<string>, path: string, archive: Option<bool>, link: string)

  /** A filesystem path, given as the list of its components. */
  type Path = seq<string>

  /** The parts of a terminal event the key handlers look at. */
  datatype KeyEventKind = Press | Repeat | Release

  /** Key codes: the ones the handlers match on, every other key as `OtherKey`. */
  datatype KeyCode = Up | Down | Left | Right | Enter | Char(c: char) | OtherKey

  /** A key event, or any other terminal event (mouse, resize, focus, paste). */
  datatype Event = Key(kind: KeyEventKind, code: KeyCode) | NonKey

  /** A background task launched by a key handler: fetching the list of available
      builds, or downloading one build into the configured directory. */
  datatype Task = FetchLinks(config: Config) | Download(version: BlenderVersion, config: Config)
}
