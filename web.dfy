/**
 * The servlet glue the pages share: request parameters as a map, and the
 * flash message left in the session for the next page.
 */
module Web {

  /** Request parameters by name. A parameter present with any value, even "", is in the map. */
  type Params = map<string, string>

  /** ParamUtils.getStringParameter(request, name, ""): a missing parameter reads as "". */
  function Param(params: Params, name: string): string {
    if name in params then params[name] else ""
  }

  /** ParamUtils.getBooleanParameter(request, name): "true" or "on" is true, anything else false. */
  predicate BoolParam(params: Params, name: string) {
    name in params && (params[name] == "true" || params[name] == "on")
  }

  /** The flash message levels of FlashMessageTag. */
  datatype Level = SuccessMessage | WarningMessage | ErrorMessage

  /** A flash message: its level and the key of its localized text. */
  datatype Flash = Flash(level: Level, key: string)
}
