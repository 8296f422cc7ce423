/** The backend application's own routes: the health probe and the catch-all that serves the built
    front end. The file system is two predicates: which paths are regular files, and which exist. */
module SpaServer {
  import opened Text

  /** The version the application declares. */
  const AppVersion: string := "2.0.0"

  datatype Health = Health(status: string, version: string)

  /** `GET /health`: always up, reporting the application's declared version. */
  function HealthCheck(): (h: Health)
    ensures h.status == "ok" && h.version == AppVersion
  {
    Health("ok", "2.0.0")
  }

  /** The catch-all route's answer: the `{"detail": "Not Found"}` body, or a file. */
  datatype Response = NotFound | ServeFile(path: string)

  const ApiPrefix: string := "api/"
  const IndexFile: string := "index.html"

  /** `os.path.join(dir, p)` on POSIX: an absolute `p` discards `dir`; otherwise one '/' separates them. */
  function JoinPath(dir: string, p: string): (r: string)
    ensures |p| <= |r| && r[|r| - |p|..] == p
    ensures |p| > 0 && p[0] == '/' ==> r == p
    ensures !(|p| > 0 && p[0] == '/') ==>
              var head := r[..|r| - |p|];
              && (|head| == 0 || head[|head| - 1] == '/')
              && (head == dir <==> |dir| == 0 || dir[|dir| - 1] == '/')
              && (head != dir ==> head == dir + "/")
  {
    if |p| > 0 && p[0] == '/' then p
    else if |dir| == 0 || dir[|dir| - 1] == '/' then dir + p
    else dir + "/" + p
  }

  /** `serve_spa(full_path)` as written: API paths are refused; a path naming a regular file under the
      static directory (after joining) is served; otherwise `index.html` if it exists; otherwise Not Found. */
  function ServeSpaAsWritten(fullPath: string, staticDir: string, isFile: string -> bool, pathExists: string -> bool): (r: Response)
    ensures ApiPrefix <= fullPath ==> r == NotFound
    ensures !(ApiPrefix <= fullPath) && isFile(JoinPath(staticDir, fullPath)) ==>
              r == ServeFile(JoinPath(staticDir, fullPath))
    ensures !(ApiPrefix <= fullPath) && !isFile(JoinPath(staticDir, fullPath)) ==>
              (pathExists(JoinPath(staticDir, IndexFile)) ==> r == ServeFile(JoinPath(staticDir, IndexFile)))
              && (!pathExists(JoinPath(staticDir, IndexFile)) ==> r == NotFound)
  {
    if ApiPrefix <= fullPath then NotFound
    else
      var staticFile := JoinPath(staticDir, fullPath);
      if isFile(staticFile) then ServeFile(staticFile)
      else
        var indexPath := JoinPath(staticDir, IndexFile);
        if pathExists(indexPath) then ServeFile(indexPath) else NotFound
  }

  /** A ".." path segment starts at index `i`. */
  predicate DotDotAt(p: string, i: nat)
  {
    OccursAt(p, "..", i) && (i == 0 || p[i - 1] == '/') && (i + 2 == |p| || p[i + 2] == '/')
  }

  /** A path with no two consecutive dots has no ".." segment. */
  lemma NoDoubleDot(p: string)
    requires forall i :: 0 <= i < |p| - 1 ==> !(p[i] == '.' && p[i + 1] == '.')
    ensures forall i :: 0 <= i <= |p| - 2 ==> !DotDotAt(p, i)
  {
    forall i | 0 <= i <= |p| - 2 ensures !OccursAt(p, "..", i) {
      var w := p[i..i + 2];
      assert w[0] == p[i] && w[1] == p[i + 1];
    }
  }

  /** A request path that names something inside the directory it is joined to: relative, and with no
      ".." segment. */
  predicate Confined(p: string)
  {
    !(|p| > 0 && p[0] == '/') && !(exists i :: 0 <= i <= |p| - 2 && DotDotAt(p, i))
  }

  /** `f` is `dir` + "/" + a confined relative path. */
  predicate WithinDir(dir: string, f: string)
  {
    |f| > |dir| && f[..|dir| + 1] == dir + "/" && Confined(f[|dir| + 1..])
  }

  /** A static directory as the application computes it: absolute, and not ending in '/'. */
  predicate StaticDirShape(dir: string)
  {
    |dir| > 1 && dir[0] == '/' && dir[|dir| - 1] != '/'
  }

  /** `serve_spa` with the static-file branch taken only for confined paths; everything else about the
      route is as written. */
  function ServeSpa(fullPath: string, staticDir: string, isFile: string -> bool, pathExists: string -> bool): (r: Response)
    ensures ApiPrefix <= fullPath ==> r == NotFound
    ensures !(ApiPrefix <= fullPath) && Confined(fullPath) && isFile(JoinPath(staticDir, fullPath)) ==>
              r == ServeFile(JoinPath(staticDir, fullPath))
    ensures !(ApiPrefix <= fullPath) && !(Confined(fullPath) && isFile(JoinPath(staticDir, fullPath))) ==>
              (pathExists(JoinPath(staticDir, IndexFile)) ==> r == ServeFile(JoinPath(staticDir, IndexFile)))
              && (!pathExists(JoinPath(staticDir, IndexFile)) ==> r == NotFound)
  {
    if ApiPrefix <= fullPath then NotFound
    else
      var staticFile := JoinPath(staticDir, fullPath);
      if Confined(fullPath) && isFile(staticFile) then ServeFile(staticFile)
      else
        var indexPath := JoinPath(staticDir, IndexFile);
        if pathExists(indexPath) then ServeFile(indexPath) else NotFound
  }

  /** Whatever the file system holds, the route only ever serves a file inside the static directory. */
  lemma ServeSpaStaysInStaticDir(fullPath: string, staticDir: string, isFile: string -> bool, pathExists: string -> bool)
    requires StaticDirShape(staticDir)
    ensures ServeSpa(fullPath, staticDir, isFile, pathExists).ServeFile? ==>
              WithinDir(staticDir, ServeSpa(fullPath, staticDir, isFile, pathExists).path)
  {
    if !(ApiPrefix <= fullPath) {
      if Confined(fullPath) && isFile(JoinPath(staticDir, fullPath)) {
        JoinConfined(staticDir, fullPath);
      } else {
        NoDoubleDot(IndexFile);
        JoinConfined(staticDir, IndexFile);
      }
    }
  }

  /** Joining a confined path onto a static directory lands inside it. */
  lemma JoinConfined(dir: string, p: string)
    requires StaticDirShape(dir)
    requires Confined(p)
    ensures WithinDir(dir, JoinPath(dir, p))
  {
    var f := dir + "/" + p;
    assert JoinPath(dir, p) == f;
    assert f[|dir| + 1..] == p;
    assert f[..|dir| + 1] == dir + "/";
  }

  /** The bare path "api" is not an API path: an existing file of that name is served. */
  lemma BareApiIsNotApi(staticDir: string, isFile: string -> bool, pathExists: string -> bool)
    requires isFile(JoinPath(staticDir, "api"))
    ensures ServeSpa("api", staticDir, isFile, pathExists) == ServeFile(JoinPath(staticDir, "api"))
    ensures ServeSpaAsWritten("api", staticDir, isFile, pathExists) == ServeFile(JoinPath(staticDir, "api"))
  {
    assert !(ApiPrefix <= "api");
    NoDoubleDot("api");
  }

  /** As written, an absolute request path replaces the static directory in the join, so any regular file
      on the machine can be served. */
  lemma AsWrittenServesAbsolutePath()
    ensures var r := ServeSpaAsWritten("/etc/passwd", "/srv/app/static", (p: string) => p == "/etc/passwd", (p: string) => true);
            r == ServeFile("/etc/passwd") && !WithinDir("/srv/app/static", r.path)
  {
    assert JoinPath("/srv/app/static", "/etc/passwd") == "/etc/passwd";
  }

  /** As written, a ".." segment climbs out of the static directory. */
  lemma AsWrittenServesParentPath()
    ensures var r := ServeSpaAsWritten("../app/main.py", "/srv/app/static", (p: string) => true, (p: string) => true);
            r == ServeFile("/srv/app/static/../app/main.py") && !WithinDir("/srv/app/static", r.path)
  {
    var dir := "/srv/app/static";
    var p := "../app/main.py";
    var f := "/srv/app/static/../app/main.py";
    assert p[0] == '.' && dir[|dir| - 1] == 'c';
    assert dir + "/" + p == f;
    assert JoinPath(dir, p) == f;
    assert f[|"/srv/app/static"| + 1..] == "../app/main.py";
    assert DotDotAt("../app/main.py", 0);
  }
}
