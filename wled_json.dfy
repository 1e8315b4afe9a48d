/**
 The part of WLED's usermod configuration tree that the EE-LoveButton usermod
 touches: the "um" object of cfg.json, whose members are the settings objects
 of the individual usermods, each mapping a setting name to a number.

 ArduinoJson's document machinery is abstracted to maps. A setting whose value
 is JSON null is `None`; a setting that is absent is simply not a key of the
 section. Values are already 16-bit unsigned numbers: ArduinoJson's conversion
 of strings, floats and out-of-range numbers is not modelled.
 */
module WledJson {

  /** C++ `uint16_t`. */
  type uint16 = x: int | 0 <= x < 0x1_0000

  datatype Option<T> = None | Some(value: T)

  /** One usermod's settings object: setting name to value, `None` for JSON null. */
  type Section = map<string, Option<uint16>>

  /** The result of WLED's three-argument `getJsonValue(element, destination, default)`:
      the value left in `destination`, and whether the element held a value. */
  datatype JsonRead = JsonRead(value: uint16, found: bool)

  /** `top[key]` where `top` may itself be a null object: the element is null
      when the object is null, the key is missing, or the stored value is null. */
  function Member(top: Option<Section>, key: string): (e: Option<uint16>)
    ensures e.Some? <==> top.Some? && key in top.value && top.value[key].Some?
    ensures e.Some? ==> top.value[key] == e
  {
    match top
    case None => None
    case Some(section) => if key in section then section[key] else None
  }

  /** Three-argument `getJsonValue`: a null element leaves the default in the
      destination and reports false; otherwise the element's value is taken and
      the call reports true. */
  function GetJsonValue(element: Option<uint16>, default: uint16): (r: JsonRead)
    ensures r.found <==> element.Some?
    ensures r.found ==> r.value == element.value
    ensures !r.found ==> r.value == default
  {
    match element
    case None => JsonRead(default, false)
    case Some(v) => JsonRead(v, true)
  }

  /** `root[name]` converted to a `JsonObject`: null when the member is absent. */
  function SectionOf(sections: map<string, Section>, name: string): (top: Option<Section>)
    ensures top.Some? <==> name in sections
    ensures top.Some? ==> top.value == sections[name]
  {
    if name in sections then Some(sections[name]) else None
  }

  /** A JSON object passed by reference (`JsonObject&`) whose members are settings objects. */
  class ConfigRoot {
    var sections: map<string, Section>

    constructor (initial: map<string, Section>)
      ensures sections == initial
    {
      sections := initial;
    }
  }
}
