/** path.Base, by which Detach finds the disk in the device name it is given. */
module Paths {

  function TrimSlashes(s: string): (r: string)
    ensures r != [] ==> r[|r| - 1] != '/'
  {
    if s != [] && s[|s| - 1] == '/' then TrimSlashes(s[..|s| - 1]) else s
  }

  /** What follows the last slash. */
  function LastPart(s: string): (r: string)
    ensures '/' !in r
  {
    if s == [] || s[|s| - 1] == '/' then [] else LastPart(s[..|s| - 1]) + [s[|s| - 1]]
  }

  function Base(path: string): string {
    if path == "" then "."
    else if TrimSlashes(path) == "" then "/"
    else LastPart(TrimSlashes(path))
  }

  lemma {:induction false} LastPartOf(prefix: string, id: string)
    requires '/' !in id
    ensures LastPart(prefix + "/" + id) == id && LastPart(id) == id
  {
    var s := prefix + "/" + id;
    if id != [] {
      var n := |id| - 1;
      LastPartOf(prefix, id[..n]);
      assert s[..|s| - 1] == prefix + "/" + id[..n];
    }
  }

  /** A volume name is found again in itself exactly when it holds no slash or is the root. */
  lemma BaseOfName(id: string)
    requires id != ""
    ensures Base(id) == id <==> '/' !in id || id == "/"
  {
    if '/' !in id {
      LastPartOf("", id);
    }
    if id == "/" {
      assert TrimSlashes(id[..0]) == "";
    }
  }

  /** A volume name without a slash is found at the end of any path. */
  lemma BaseOfPath(prefix: string, id: string)
    requires id != "" && '/' !in id
    ensures Base(prefix + "/" + id) == id
  {
    var path := prefix + "/" + id;
    assert path[|path| - 1] == id[|id| - 1];
    LastPartOf(prefix, id);
  }

  /** And only such a name is found at the end of every path. */
  lemma BaseNeedsPlainName(id: string)
    requires id != "" && '/' in id
    ensures Base("x" + "/" + id) != id
  {
    var path := "x" + "/" + id;
    SlashesOnly(path);
    assert path[0] == 'x';
  }

  lemma {:induction false} SlashesOnly(s: string)
    ensures TrimSlashes(s) == "" ==> forall i :: 0 <= i < |s| ==> s[i] == '/'
  {
    if s != [] {
      SlashesOnly(s[..|s| - 1]);
    }
  }

  function Slashes(n: nat): string {
    seq(n, _ => '/')
  }

  lemma {:induction false} TrimAppended(s: string, n: nat)
    requires s == [] || s[|s| - 1] != '/'
    ensures TrimSlashes(s + Slashes(n)) == s
  {
    if n == 0 {
      assert s + Slashes(n) == s;
    } else {
      TrimAppended(s, n - 1);
      var t := s + Slashes(n);
      assert t[..|t| - 1] == s + Slashes(n - 1);
    }
  }

  lemma SlashInFront(prefix: string, id: string)
    requires prefix != "" && prefix[|prefix| - 1] == '/'
    ensures prefix + id == prefix[..|prefix| - 1] + "/" + id
  {
    assert prefix == prefix[..|prefix| - 1] + "/";
  }

  lemma LastPartAfter(prefix: string, id: string)
    requires '/' !in id && (prefix == "" || prefix[|prefix| - 1] == '/')
    ensures LastPart(prefix + id) == id
  {
    if prefix == "" {
      LastPartOf("", id);
      assert prefix + id == id;
    } else {
      SlashInFront(prefix, id);
      LastPartOf(prefix[..|prefix| - 1], id);
    }
  }

  lemma BaseOfSlashes(n: nat)
    ensures Base(Slashes(n + 1)) == "/"
  {
    TrimAppended("", n + 1);
    assert "" + Slashes(n + 1) == Slashes(n + 1);
  }

  /** path.Base is the last part of a path, whatever comes before it and however many slashes after; a path
      of slashes only is the root, and no path at all is the current directory. */
  lemma BaseExactly(prefix: string, id: string, n: nat)
    requires id != "" && '/' !in id && (prefix == "" || prefix[|prefix| - 1] == '/')
    ensures Base(prefix + id + Slashes(n)) == id
    ensures Base(Slashes(n + 1)) == "/" && Base("") == "."
  {
    var path := prefix + id;
    assert path[|path| - 1] == id[|id| - 1];
    TrimAppended(path, n);
    LastPartAfter(prefix, id);
    BaseOfSlashes(n);
  }
}
