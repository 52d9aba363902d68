/** The options dictionary that every builder of mush.py reads. Each key may be
    missing; each builder substitutes its own default for a missing key. */
module Config {

  datatype Option<T> = None | Some(value: T) {
    /** The value, or `default` when the key is missing (the `try`/`except KeyError` pattern). */
    function GetOr(default: T): T {
      match this
      case Some(v) => v
      case None => default
    }
  }

  /** The recognised keys: `advection`, `Ra`, `bc`, `s`, `K0`, `delta`, `eta`. */
  datatype Options = Options(
    advection: Option<string>,
    ra: Option<real>,
    bc: Option<string>,
    s: Option<real>,
    k0: Option<real>,
    delta: Option<real>,
    eta: Option<real>)

  /** The empty dictionary `{}`, the default of `fluxlimiterscheme` and `velocity_Sumita`. */
  const NoOptions := Options(None, None, None, None, None, None, None)

  /** `{'advection': "upwind", 'Ra': 0.}`, the default of `update`. */
  const UpdateDefaults := Options(Some("upwind"), Some(0.0), None, None, None, None, None)
}
