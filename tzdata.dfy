/** Shared vocabulary of the timezone-data update script: the fixed list of
    IANA region files and the outcome type for its steps that can fail. */
module Tzdata {

  /** The region files read from the extracted IANA tarball, in the order the
      script processes them; `backward` and `backzone` deliberately come last. */
  const Regions: seq<string> :=
    ["africa", "antarctica", "asia", "australasia",
     "etcetera", "europe", "northamerica", "southamerica",
     "backward", "backzone"]

  /** The Python exceptions the modelled code can raise. Neither carries data
      the script looks at. */
  datatype Error =
    | IndexError       // `fields[1]` or `fields[2]` past the end of a short line
    | NoVersionMatch   // `.group(1)` called on the `None` that `re.search` returned

  datatype Result<T> = Ok(value: T) | Err(error: Error)
}
