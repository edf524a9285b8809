/** Lexical path validation (src/path_safety.rs and the same rule in src/lockfile.rs). */
module PathSafety {
  import opened PathText

  predicate PlainComponent(part: string)
  {
    part !in {"", ".", ".."}
  }

  /** A normalized relative path: no root, drive prefix, backslash, empty, `.` or `..` component. */
  predicate LegalRelativePath(path: string)
  {
    && path != "" && path[0] != '/' && '\\' !in path
    && (forall i :: 0 <= i < |Split(path)| ==> PlainComponent(Split(path)[i]))
    && (|path| > 1 ==> path[1] != ':')
  }

  /** `validate_package_path`: such a path with a `node_modules/<name>` segment somewhere. */
  predicate ValidPackagePath(path: string)
  {
    && LegalRelativePath(path)
    && exists i {:trigger Split(path)[i]} :: 0 <= i < |Split(path)| - 1 && Split(path)[i] == "node_modules" && PlainComponent(Split(path)[i + 1])
  }
}
