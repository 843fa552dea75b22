/**
 * `AbsolutePathPredicate`: the file-system predicate that selects the input file with a given
 * absolute path. It matches a file by comparing paths, and, when the file system asks it to,
 * finds its file through the index of input files by relative path instead of scanning.
 *
 * Path normalisation (`PathUtils.sanitize`) and the relative path from the base directory
 * (`PathResolver.relativePath`) are not part of this model: they are parameters, and either may
 * give null (`None`).
 */
module FilePredicates {
  import opened Wrappers

  /** An indexed input file, as far as the predicate looks at it: its absolute path. */
  datatype InputFile = InputFile(absolutePath: string)

  /** The file-system index: input files by relative path (`index.inputFile(relative)`). */
  type Index = map<string, InputFile>

  /** How a file system evaluates a predicate: by scanning all files, or through the index. */
  datatype Priority = DefaultPriority | UseIndex

  /** `PathUtils.sanitize`: normalises a possibly-null path to a possibly-null path. */
  type Sanitizer = Option<string> -> Option<string>

  /** `relativePath(baseDir, file)`: the path of `file` relative to `baseDir`, or null. */
  type Relativizer = (string, string) -> Option<string>

  /** The predicate's two final fields: the sanitized path (possibly null) and the base directory. */
  datatype AbsolutePathPredicate = AbsolutePathPredicate(path: Option<string>, baseDir: string) {

    /**
     * `apply(f)`: whether `f` is the file this predicate selects. `None` stands for the
     * `NullPointerException` thrown when the sanitized path is null.
     */
    function Apply(f: InputFile): (r: Option<bool>)
      ensures r.None? <==> path.None?
      ensures r == Some(true) <==> path == Some(f.absolutePath)
    {
      match path
      case None => None
      case Some(p) => Some(p == f.absolutePath)
    }

    /**
     * `get(index)`: the files this predicate selects, looked up in the index. `None` stands for
     * the `NullPointerException` thrown when the sanitized path is null.
     */
    function Get(index: Index, sanitize: Sanitizer, relativePath: Relativizer): (files: Option<seq<InputFile>>)
      ensures files.None? <==> path.None?
      ensures files.Some? ==> |files.value| <= 1
      ensures path.Some? && sanitize(relativePath(baseDir, path.value)).None? ==> files == Some([])
      ensures path.Some? && sanitize(relativePath(baseDir, path.value)).Some? ==>
        var relative := sanitize(relativePath(baseDir, path.value)).value;
        files == if relative in index then Some([index[relative]]) else Some([])
    {
      match path
      case None => None
      case Some(p) =>
        match sanitize(relativePath(baseDir, p))
        case None => Some([])
        case Some(relative) => if relative in index then Some([index[relative]]) else Some([])
    }

    /** `priority()`: this predicate is always evaluated through the index. */
    function Priority(): (p: Priority)
      ensures p == UseIndex
    {
      UseIndex
    }
  }

  /** The constructor: the predicate keeps the sanitized form of the path it is given. */
  function NewAbsolutePathPredicate(path: string, baseDir: string, sanitize: Sanitizer): (p: AbsolutePathPredicate)
    ensures p.path == sanitize(Some(path)) && p.baseDir == baseDir
  {
    AbsolutePathPredicate(sanitize(Some(path)), baseDir)
  }

  /**
   * An index agrees with the path helpers when each file is filed under the sanitized relative
   * path of its own absolute path.
   */
  ghost predicate IndexAgrees(index: Index, baseDir: string, sanitize: Sanitizer, relativePath: Relativizer) {
    forall relative :: relative in index ==> sanitize(relativePath(baseDir, index[relative].absolutePath)) == Some(relative)
  }

  /** Distinct paths under `baseDir` never share a (non-null) sanitized relative path. */
  ghost predicate RelativePathsDistinct(baseDir: string, sanitize: Sanitizer, relativePath: Relativizer) {
    forall a, b ::
      (sanitize(relativePath(baseDir, a)).Some? && sanitize(relativePath(baseDir, a)) == sanitize(relativePath(baseDir, b)))
      ==> a == b
  }

  /**
   * Looking a file up through the index misses nothing a scan would find: when the index agrees
   * with the path helpers, every indexed file the predicate applies to is the one `get` returns.
   */
  lemma {:induction false} GetFindsEveryMatchingFile(pred: AbsolutePathPredicate, index: Index,
                                                     sanitize: Sanitizer, relativePath: Relativizer, relative: string)
    requires IndexAgrees(index, pred.baseDir, sanitize, relativePath)
    requires relative in index && pred.Apply(index[relative]) == Some(true)
    ensures pred.Get(index, sanitize, relativePath) == Some([index[relative]])
  {
    assert sanitize(relativePath(pred.baseDir, index[relative].absolutePath)) == Some(relative);
  }

  /**
   * And the lookup finds nothing a scan would reject: when the index agrees with the path helpers
   * and no two paths share a sanitized relative path, the file `get` returns is one the predicate
   * applies to.
   */
  lemma {:induction false} GetReturnsOnlyMatchingFiles(pred: AbsolutePathPredicate, index: Index,
                                                       sanitize: Sanitizer, relativePath: Relativizer)
    requires IndexAgrees(index, pred.baseDir, sanitize, relativePath)
    requires RelativePathsDistinct(pred.baseDir, sanitize, relativePath)
    ensures forall f :: pred.Get(index, sanitize, relativePath) == Some([f]) ==> pred.Apply(f) == Some(true)
  {
    forall f | pred.Get(index, sanitize, relativePath) == Some([f])
      ensures pred.Apply(f) == Some(true)
    {
      var p := pred.path.value;
      var relative := sanitize(relativePath(pred.baseDir, p)).value;
      assert relative in index && f == index[relative];
      assert sanitize(relativePath(pred.baseDir, f.absolutePath)) == Some(relative);
    }
  }
}
