// `_sanitize_filename`: `re.sub(r'[<>:"/\\|?*]', '_', name)`, also used for
// the default install directory of an app descriptor.
module Sanitize {

  /** The characters the character class `[<>:"/\\|?*]` matches. */
  predicate Forbidden(c: char)
  {
    c == '<' || c == '>' || c == ':' || c == '"' || c == '/' || c == '\\' || c == '|' || c == '?' || c == '*'
  }

  /** Replaces every forbidden character by `_`, scanning left to right as `re.sub` does. */
  function SanitizeFilename(name: string): (r: string)
    ensures |r| == |name|
    ensures forall i :: 0 <= i < |name| ==> r[i] == (if Forbidden(name[i]) then '_' else name[i])
    ensures forall i :: 0 <= i < |r| ==> !Forbidden(r[i])
  {
    if name == [] then []
    else (if Forbidden(name[0]) then "_" else [name[0]]) + SanitizeFilename(name[1..])
  }

  /** Sanitizing twice is sanitizing once. */
  lemma SanitizeIdempotent(name: string)
    ensures SanitizeFilename(SanitizeFilename(name)) == SanitizeFilename(name)
  {
    var once := SanitizeFilename(name);
    var twice := SanitizeFilename(once);
    assert forall i :: 0 <= i < |once| ==> twice[i] == once[i];
  }

  /** A name without forbidden characters is returned as it is. */
  lemma {:induction false} SanitizeKeepsCleanName(name: string)
    requires forall i :: 0 <= i < |name| ==> !Forbidden(name[i])
    ensures SanitizeFilename(name) == name
  {
    if name != [] {
      SanitizeKeepsCleanName(name[1..]);
    }
  }
}
