/**
  The filesystem as the two tools see it, and `resolveTemplatePath`, which
  both tools define identically. Path joining and resolution are kept
  abstract: `path.join` and `path.resolve` become concatenation with a
  separator, without normalisation.
 */
module Paths {
  import opened Results
  import opened Text

  /**
    What a run of either tool can observe of the machine: the working
    directory, the templates directory next to the scripts
    (`<script dir>/../templates`), and the answers of `existsSync`,
    `readFileSync` and `readdirSync` (each result, or the message the call
    throws).
   */
  datatype Host = Host(
    cwd: string,
    templatesDir: string,
    fileExists: string -> bool,
    readFile: string -> Result<string, string>,
    listDir: string -> Result<seq<string>, string>)

  /** `path.join(dir, name)`, as plain concatenation. */
  function JoinPath(dir: string, name: string): string {
    dir + "/" + name
  }

  /** `path.resolve(p)` for a relative `p`: anchored at the working directory. */
  function Absolute(h: Host, p: string): string {
    JoinPath(h.cwd, p)
  }

  /** A path the resolver returns unchanged: one that starts with `/`. */
  predicate IsAbsolute(id: string) {
    StartsWith(id, "/")
  }

  /** The error `resolveTemplatePath` throws: `Template not found: <id>`. */
  datatype NotFound = TemplateNotFound(id: string)

  /**
    `resolveTemplatePath(id)`: the identifier itself when it is absolute;
    otherwise the working-directory path when a file exists there; otherwise
    the templates-directory path when a file exists there; otherwise a
    not-found error.
   */
  function ResolveTemplatePath(h: Host, id: string): (r: Result<string, NotFound>)
    ensures IsAbsolute(id) ==> r == Ok(id)
    ensures !IsAbsolute(id) && h.fileExists(id) ==> r == Ok(Absolute(h, id))
    ensures !IsAbsolute(id) && !h.fileExists(id) && h.fileExists(JoinPath(h.templatesDir, id))
            ==> r == Ok(JoinPath(h.templatesDir, id))
    ensures r.Err? <==> !IsAbsolute(id) && !h.fileExists(id) && !h.fileExists(JoinPath(h.templatesDir, id))
    ensures r.Err? ==> r.error == TemplateNotFound(id)
  {
    if IsAbsolute(id) then Ok(id)
    else if h.fileExists(id) then Ok(Absolute(h, id))
    else
      var candidate := JoinPath(h.templatesDir, id);
      if h.fileExists(candidate) then Ok(candidate)
      else Err(TemplateNotFound(id))
  }

  /** Two hosts with the same directories that agree on whether `p` exists. */
  predicate AgreeOn(h1: Host, h2: Host, p: string) {
    h1.cwd == h2.cwd && h1.templatesDir == h2.templatesDir && h1.fileExists(p) == h2.fileExists(p)
  }

  /** An absolute identifier is returned as it is, whatever the filesystem holds. */
  lemma AbsoluteNeedsNoLookup(h1: Host, h2: Host, id: string)
    requires IsAbsolute(id)
    ensures ResolveTemplatePath(h1, id) == ResolveTemplatePath(h2, id) == Ok(id)
  {
  }

  /**
    An existing working-directory path wins: the templates directory is not
    consulted, so whether a file exists there cannot change the result.
   */
  lemma WorkingDirectoryWins(h1: Host, h2: Host, id: string)
    requires !IsAbsolute(id) && AgreeOn(h1, h2, id) && h1.fileExists(id)
    ensures ResolveTemplatePath(h1, id) == ResolveTemplatePath(h2, id) == Ok(Absolute(h1, id))
  {
  }

  /**
    Resolution depends on nothing but the identifier, the two directories
    and whether the two candidates exist.
   */
  lemma ResolutionLooksOnlyAtCandidates(h1: Host, h2: Host, id: string)
    requires AgreeOn(h1, h2, id) && AgreeOn(h1, h2, JoinPath(h1.templatesDir, id))
    ensures ResolveTemplatePath(h1, id) == ResolveTemplatePath(h2, id)
  {
  }

  /**
    Resolution fails exactly when nothing exists under either candidate, and
    the error names the identifier as given, not the paths tried.
   */
  lemma NotFoundNamesIdentifier(h: Host, id: string)
    ensures ResolveTemplatePath(h, id).Err?
            <==> !IsAbsolute(id) && !h.fileExists(id) && !h.fileExists(JoinPath(h.templatesDir, id))
    ensures ResolveTemplatePath(h, id).Err? ==> ResolveTemplatePath(h, id).error.id == id
  {
  }
}

/** The templating and data-format libraries, as oracles. */
module Library {
  import opened Results

  /** What `Handlebars.compile(text)` does: return, or throw with a message. */
  datatype Compiled = Compiles | CompileError(message: string)

  /**
    The library calls the renderer makes: `Handlebars.compile`; `yaml.parse`,
    of which only the message it throws, if any, matters here; and evaluation
    of a compiled template against the document parsed from a data text.
    Compiling and parsing are deterministic, so the compiled template and the
    document are identified by their source texts.
   */
  datatype Engine = Engine(
    compile: string -> Compiled,
    parseError: string -> Option<string>,
    evaluate: (string, string) -> Result<string, string>)
}
