/** xds: targets and the (authority, resource) pairs they denote. */
module XdsTarget {
  import opened Prelude
  import opened Strings

  function TrimPrefix(s: string, prefix: string): string {
    if prefix <= s then s[|prefix|..] else s
  }

  /** The authority and resource of a target, or None when it is not an xds: target. */
  function ParseXdsTarget(target: string): Option<(string, string)> {
    if !("xds:" <= target) then None
    else
      var rest := TrimPrefix(target, "xds:");
      if !("//" <= rest) then Some(("", TrimPrefix(rest, "/")))
      else
        var full := TrimPrefix(rest, "//");
        var slash := FirstIndex(full, '/');
        if slash < 0 then Some((full, ""))
        else Some((full[..slash], full[slash + 1..]))
  }

  /** The full form of a target. */
  function PrintXdsTarget(authority: string, resource: string): string {
    "xds://" + authority + "/" + resource
  }

  /** Reading the full form back gives the pair exactly when the authority has no slash. */
  lemma PrintedReadsBack(authority: string, resource: string)
    ensures ParseXdsTarget(PrintXdsTarget(authority, resource)) == Some((authority, resource))
      <==> '/' !in authority
  {
    var t := PrintXdsTarget(authority, resource);
    var full := authority + ['/'] + resource;
    assert t[..4] == "xds:";
    assert TrimPrefix(t, "xds:") == "//" + full;
    assert TrimPrefix("//" + full, "//") == full;
    if '/' !in authority {
      FirstSeparator(authority, '/', resource);
      assert full[..|authority|] == authority && full[|authority| + 1..] == resource;
    }
  }

  /** The short forms: without an authority section, with one leading slash dropped, and with an
      authority alone; whatever lacks the scheme is refused. */
  lemma ShortForms(s: string)
    requires s == [] || s[0] != '/'
    ensures ParseXdsTarget("xds:" + s) == ParseXdsTarget("xds:/" + s) == Some(("", s))
    ensures '/' !in s ==> ParseXdsTarget("xds://" + s) == Some((s, ""))
    ensures forall t: string | !("xds:" <= t) :: ParseXdsTarget(t).None?
  {
    var a, b, c := "xds:" + s, "xds:/" + s, "xds://" + s;
    assert a[..4] == b[..4] == c[..4] == "xds:";
    assert a[4..] == s && b[4..] == "/" + s && c[4..] == "//" + s;
    assert ("/" + s)[1..] == s && ("//" + s)[2..] == s;
    assert s != [] ==> ("/" + s)[1] != '/';
  }

  /** Every accepted target has a slash-free authority, so its full form is accepted and
      denotes the same pair. */
  lemma NormalForm(target: string)
    requires ParseXdsTarget(target).Some?
    ensures var (authority, resource) := ParseXdsTarget(target).value;
      '/' !in authority && ParseXdsTarget(PrintXdsTarget(authority, resource)) == ParseXdsTarget(target)
  {
    var pair := ParseXdsTarget(target).value;
    PrintedReadsBack(pair.0, pair.1);
  }
}
