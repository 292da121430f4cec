/** Value types shared by every component of the model. */
module Common {
  datatype Option<+T> = None | Some(value: T)

  datatype Result<+T, +E> = Ok(value: T) | Err(error: E)

  /** A byte of a stream or of an OS string. */
  type Byte = n: nat | n < 0x100

  /** A serde_json value; only its equality matters here. */
  datatype Json = Json(text: string)

  /** A SemVer version and a SemVer requirement, as parsed from their text. */
  datatype Version = Version(text: string)
  datatype VersionReq = VersionReq(text: string)

  /** The semver crate's `VersionReq::matches`, passed to whatever depends on it. */
  type Matches = (VersionReq, Version) -> bool
}
