/** The page frame, `src/components/layout/Layout.tsx`: the title shown for a route and the
    sidebar's open flag. */
module Layout {
  import opened Common

  const DefaultTitle := "ONG Amar Sem Limites"

  /** `getPageTitle`: `'/'` exactly, then the first route prefix the path starts with. */
  function PageTitle(path: string): (title: string)
    ensures path == "/" ==> title == "Dashboard"
  {
    if path == "/" then "Dashboard"
    else if StartsWith(path, "/alunos") then "Alunos"
    else if StartsWith(path, "/cursos") then "Cursos"
    else if StartsWith(path, "/frequencia") then "Frequência"
    else if StartsWith(path, "/assistencia-social") then "Assistência Social"
    else if StartsWith(path, "/saude") then "Saúde"
    else if StartsWith(path, "/relatorios") then "Relatórios"
    else if StartsWith(path, "/perfil") then "Perfil"
    else if StartsWith(path, "/configuracoes") then "Configurações"
    else DefaultTitle
  }

  datatype Route = Route(prefix: string, title: string)

  /** The route table the if-chain spells out, in its order. */
  const Routes: seq<Route> := [
    Route("/alunos", "Alunos"), Route("/cursos", "Cursos"), Route("/frequencia", "Frequência"),
    Route("/assistencia-social", "Assistência Social"), Route("/saude", "Saúde"),
    Route("/relatorios", "Relatórios"), Route("/perfil", "Perfil"), Route("/configuracoes", "Configurações")]

  /** The reference reading: the title of the first route whose prefix the path starts with. */
  function FirstMatch(routes: seq<Route>, path: string): Option<string>
    decreases |routes|
  {
    if |routes| == 0 then None
    else if StartsWith(path, routes[0].prefix) then Some(routes[0].title)
    else FirstMatch(routes[1..], path)
  }

  /** `FirstMatch` finds nothing exactly when no prefix matches, and otherwise the title of
      the earliest matching route. */
  lemma {:induction false} FirstMatchFacts(routes: seq<Route>, path: string, k: int)
    ensures FirstMatch(routes, path).None? <==> forall i :: 0 <= i < |routes| ==> !StartsWith(path, routes[i].prefix)
    ensures 0 <= k < |routes| && StartsWith(path, routes[k].prefix)
            && (forall j :: 0 <= j < k ==> !StartsWith(path, routes[j].prefix))
            ==> FirstMatch(routes, path) == Some(routes[k].title)
    decreases |routes|
  {
    if |routes| > 0 {
      assert forall i :: 1 <= i < |routes| ==> routes[i] == routes[1..][i - 1];
      FirstMatchFacts(routes[1..], path, k - 1);
    }
  }

  /** The if-chain is the first-match lookup in the route table, with `'/'` ahead of it and
      the organisation's name as the fallback. */
  lemma PageTitleIsFirstMatch(path: string)
    ensures PageTitle(path) == if path == "/" then "Dashboard"
                               else match FirstMatch(Routes, path)
                                 case Some(t) => t
                                 case None => DefaultTitle
  {
    var r := Routes;
    assert FirstMatch(r, path) == if StartsWith(path, "/alunos") then Some("Alunos") else FirstMatch(r[1..], path);
    var r1 := r[1..];
    assert FirstMatch(r1, path) == if StartsWith(path, "/cursos") then Some("Cursos") else FirstMatch(r1[1..], path);
    var r2 := r1[1..];
    assert FirstMatch(r2, path) == if StartsWith(path, "/frequencia") then Some("Frequência") else FirstMatch(r2[1..], path);
    var r3 := r2[1..];
    assert FirstMatch(r3, path) == if StartsWith(path, "/assistencia-social") then Some("Assistência Social") else FirstMatch(r3[1..], path);
    assert r3[1..] == Routes[4..];
    LaterRoutes(path);
  }

  /** The second half of the table, read the same way. */
  lemma LaterRoutes(path: string)
    ensures FirstMatch(Routes[4..], path) ==
      if StartsWith(path, "/saude") then Some("Saúde")
      else if StartsWith(path, "/relatorios") then Some("Relatórios")
      else if StartsWith(path, "/perfil") then Some("Perfil")
      else if StartsWith(path, "/configuracoes") then Some("Configurações")
      else None
  {
    var r4 := Routes[4..];
    assert FirstMatch(r4, path) == if StartsWith(path, "/saude") then Some("Saúde") else FirstMatch(r4[1..], path);
    var r5 := r4[1..];
    assert FirstMatch(r5, path) == if StartsWith(path, "/relatorios") then Some("Relatórios") else FirstMatch(r5[1..], path);
    var r6 := r5[1..];
    assert FirstMatch(r6, path) == if StartsWith(path, "/perfil") then Some("Perfil") else FirstMatch(r6[1..], path);
    var r7 := r6[1..];
    assert FirstMatch(r7, path) == if StartsWith(path, "/configuracoes") then Some("Configurações") else FirstMatch(r7[1..], path);
    assert r7[1..] == [];
  }

  /** No route prefix is a prefix of another, so at most one route matches a path and the
      order of the table does not matter. */
  lemma RoutesExclusive(path: string, i: int, j: int)
    requires 0 <= i < j < |Routes|
    ensures !(StartsWith(path, Routes[i].prefix) && StartsWith(path, Routes[j].prefix))
  {
    var a, b := Routes[i].prefix, Routes[j].prefix;
    RouteCode(i);
    RouteCode(j);
    assert StartsWith(path, a) ==> path[1] == a[1] && path[2] == a[2];
    assert StartsWith(path, b) ==> path[1] == b[1] && path[2] == b[2];
  }

  /** The position of a route in the table, read off the two letters after its slash. */
  function Code(x: char, y: char): int {
    if x == 'a' && y == 'l' then 0 else if x == 'c' && y == 'u' then 1
    else if x == 'f' && y == 'r' then 2 else if x == 'a' && y == 's' then 3
    else if x == 's' && y == 'a' then 4 else if x == 'r' && y == 'e' then 5
    else if x == 'p' && y == 'e' then 6 else if x == 'c' && y == 'o' then 7 else -1
  }

  lemma RouteCode(k: int)
    requires 0 <= k < |Routes|
    ensures |Routes[k].prefix| >= 3 && Code(Routes[k].prefix[1], Routes[k].prefix[2]) == k
  {
    if k == 0 {
      var p := Routes[0].prefix;
      assert p == "/alunos";
      assert p[1] == 'a' && p[2] == 'l';
    } else if k == 1 {
      var p := Routes[1].prefix;
      assert p == "/cursos";
      assert p[1] == 'c' && p[2] == 'u';
    } else if k == 2 {
      var p := Routes[2].prefix;
      assert p == "/frequencia";
      assert p[1] == 'f' && p[2] == 'r';
    } else if k == 3 {
      var p := Routes[3].prefix;
      assert p == "/assistencia-social";
      assert p[1] == 'a' && p[2] == 's';
    } else if k == 4 {
      var p := Routes[4].prefix;
      assert p == "/saude";
      assert p[1] == 's' && p[2] == 'a';
    } else if k == 5 {
      var p := Routes[5].prefix;
      assert p == "/relatorios";
      assert p[1] == 'r' && p[2] == 'e';
    } else if k == 6 {
      var p := Routes[6].prefix;
      assert p == "/perfil";
      assert p[1] == 'p' && p[2] == 'e';
    } else {
      var p := Routes[7].prefix;
      assert p == "/configuracoes";
      assert p[1] == 'c' && p[2] == 'o';
    }
  }

  /** A page below a route gets the route's title: `/alunos/42/editar` is `Alunos`. */
  lemma SubPageTitle(i: int, rest: string)
    requires 0 <= i < |Routes|
    ensures PageTitle(Routes[i].prefix + rest) == Routes[i].title
  {
    var path := Routes[i].prefix + rest;
    assert path[..|Routes[i].prefix|] == Routes[i].prefix;
    assert path != "/";
    PageTitleIsFirstMatch(path);
    forall j | 0 <= j < i ensures !StartsWith(path, Routes[j].prefix) {
      RoutesExclusive(path, j, i);
    }
    FirstMatchFacts(Routes, path, i);
  }

  /** A path under no route, other than `'/'`, gets the organisation's name. */
  lemma UnknownPathTitle(path: string)
    requires path != "/"
    requires forall i :: 0 <= i < |Routes| ==> !StartsWith(path, Routes[i].prefix)
    ensures PageTitle(path) == DefaultTitle
  {
    PageTitleIsFirstMatch(path);
    FirstMatchFacts(Routes, path, 0);
  }

  /** The sidebar's open flag. */
  class Frame {
    var sidebarOpen: bool

    constructor()
      ensures !sidebarOpen
    {
      sidebarOpen := false;
    }

    /** `toggleSidebar` */
    method ToggleSidebar()
      modifies this
      ensures sidebarOpen == !old(sidebarOpen)
    {
      sidebarOpen := !sidebarOpen;
    }
  }
}
