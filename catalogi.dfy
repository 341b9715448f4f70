// Value types shared by the API and the web client.
module Catalogi {
  /** `AttributeValue = boolean | string | number | Date | null`; numbers are integers here, dates are milliseconds. */
  datatype AttributeValue = Bool(b: bool) | Text(s: string) | Number(n: int) | Date(ms: int) | Null

  /** JavaScript truthiness of an attribute value; numbers are integers, so NaN never occurs. */
  predicate Truthy(v: AttributeValue)
  {
    match v
    case Bool(b) => b
    case Text(s) => s != ""
    case Number(n) => n != 0
    case Date(_) => true
    case Null => false
  }

  datatype Os = Os(windows: bool, linux: bool, mac: bool, android: bool, ios: bool)

  /** `softwareType`: `{type: "cloud"}`, `{type: "stack"}` or `{type: "desktop/mobile", os}`. */
  datatype SoftwareType = Cloud | Stack | DesktopMobile(os: Os)
}
