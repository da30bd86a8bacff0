/** The name of the directory `clone_repo` clones into (main.py:32), derived from the path
    component of the repository URL. */
module Clone {
  import opened PyStr

  const GitSuffix: string := ".git"

  /** `urlparse(repo_url).path.split('/')[-1].replace('.git', '')` (main.py:32), given the
      path component of the URL: the last path segment with every `.git` deleted. */
  function RepoName(urlPath: string): (r: string)
    ensures '/' !in r
    ensures |r| <= |AfterLast(urlPath, '/')|
    ensures urlPath != [] && urlPath[|urlPath| - 1] == '/' ==> r == []
    ensures !Occurs(AfterLast(urlPath, '/'), GitSuffix) ==> r == AfterLast(urlPath, '/')
    ensures forall p :: FirstOccurrence(AfterLast(urlPath, '/'), GitSuffix, p) ==>
      r == AfterLast(urlPath, '/')[..p] + RemoveAll(AfterLast(urlPath, '/')[p + |GitSuffix|..], GitSuffix)
  {
    var seg := AfterLast(urlPath, '/');
    forall p | FirstOccurrence(seg, GitSuffix, p)
      ensures RemoveAll(seg, GitSuffix) == seg[..p] + RemoveAll(seg[p + |GitSuffix|..], GitSuffix)
    {
      RemoveFirst(seg, GitSuffix, p);
    }
    RemoveAll(seg, GitSuffix)
  }

  /** The last segment of `prefix/seg` is `seg` when `seg` holds no `/`. */
  lemma LastSegment(prefix: string, seg: string)
    requires '/' !in seg
    ensures AfterLast(prefix + "/" + seg, '/') == seg
  {
    var p := prefix + "/" + seg;
    assert p[|p| - |seg|..] == seg;
    assert p[|p| - |seg| - 1] == '/';
    AfterLastOfName(p, seg);
  }

  /** `name + ".git"` does not start with `.git` when `name` is non-empty and holds none:
      either `.git` would lie inside `name`, or its `.` would fall on a letter of `git`. */
  lemma NoGitAtFront(name: string)
    requires name != [] && !Occurs(name, GitSuffix)
    ensures (name + GitSuffix)[..|GitSuffix|] != GitSuffix
  {
    var s := name + GitSuffix;
    if |name| >= |GitSuffix| {
      assert s[..4] == name[..4];
      assert !OccursAt(name, GitSuffix, 0);
    } else {
      assert s[|name|] == '.' != GitSuffix[|name|];
    }
  }

  /** A string without `.git` keeps none after its first character is dropped. */
  lemma NoGitInTail(name: string)
    requires name != [] && !Occurs(name, GitSuffix)
    ensures !Occurs(name[1..], GitSuffix)
  {
    forall i | OccursAt(name[1..], GitSuffix, i)
      ensures OccursAt(name, GitSuffix, i + 1)
    {
      assert name[1..][i..i + 4] == name[i + 1..i + 5];
    }
  }

  /** Deleting `.git` from `name + ".git"` leaves `name` when `name` has no `.git` of its own:
      no occurrence can straddle the boundary, because `.` appears in `.git` only first. */
  lemma {:induction false} RemoveGitSuffix(name: string)
    requires !Occurs(name, GitSuffix)
    ensures RemoveAll(name + GitSuffix, GitSuffix) == name
  {
    var s := name + GitSuffix;
    if name == [] {
      assert s == GitSuffix && s[4..] == [];
    } else {
      NoGitAtFront(name);
      NoGitInTail(name);
      RemoveGitSuffix(name[1..]);
      calc {
        RemoveAll(s, GitSuffix);
        [s[0]] + RemoveAll(s[1..], GitSuffix);
        { assert s[1..] == name[1..] + GitSuffix; }
        [name[0]] + name[1..];
        name;
      }
    }
  }

  /** For a conventional clone URL whose last segment is `name.git` (or just `name`), the
      directory is `name`, provided `name` holds no `/` and no `.git`. */
  lemma RepoNameOfCloneUrl(prefix: string, name: string)
    requires '/' !in name && !Occurs(name, GitSuffix)
    ensures RepoName(prefix + "/" + name + GitSuffix) == name
    ensures RepoName(prefix + "/" + name) == name
  {
    assert '/' !in name + GitSuffix;
    assert prefix + "/" + name + GitSuffix == prefix + "/" + (name + GitSuffix);
    LastSegment(prefix, name + GitSuffix);
    LastSegment(prefix, name);
    RemoveGitSuffix(name);
  }

  /** One step of the scan in `RemoveAll`: a first character other than `.` is kept. */
  lemma KeepFirst(s: string)
    requires s != [] && s[0] != '.'
    ensures RemoveAll(s, GitSuffix) == [s[0]] + RemoveAll(s[1..], GitSuffix)
  {
    if |s| >= |GitSuffix| {
      assert s[..4][0] != GitSuffix[0];
    } else {
      assert !Occurs(s[1..], GitSuffix);
    }
  }

  /** The scan in `RemoveAll` keeps a prefix that holds no `.`, since no `.git` can start in it. */
  lemma {:induction false} KeepDotFree(a: string, t: string)
    requires '.' !in a
    ensures RemoveAll(a + t, GitSuffix) == a + RemoveAll(t, GitSuffix)
  {
    if a == [] {
      assert a + t == t;
    } else {
      var s := a + t;
      calc {
        RemoveAll(s, GitSuffix);
        { KeepFirst(s); }
        [a[0]] + RemoveAll(s[1..], GitSuffix);
        { assert s[1..] == a[1..] + t; }
        [a[0]] + RemoveAll(a[1..] + t, GitSuffix);
        { KeepDotFree(a[1..], t); }
        [a[0]] + (a[1..] + RemoveAll(t, GitSuffix));
        { assert a == [a[0]] + a[1..]; }
        a + RemoveAll(t, GitSuffix);
      }
    }
  }

  /** A leading `.git` is deleted and the scan resumes right after it. */
  lemma SkipLeadingGit(t: string)
    ensures RemoveAll(GitSuffix + t, GitSuffix) == RemoveAll(t, GitSuffix)
  {
    assert (GitSuffix + t)[..4] == GitSuffix && (GitSuffix + t)[4..] == t;
  }

  /** `hub.io` contains no `.git`. */
  lemma HubIoHasNoGit()
    ensures !Occurs("hub.io", GitSuffix)
  {
    forall i | 0 <= i <= 2
      ensures !OccursAt("hub.io", GitSuffix, i)
    {
      assert "hub.io"[i..i + 4][0] == "hub.io"[i] && "hub.io"[i..i + 4][1] == "hub.io"[i + 1];
    }
  }

  /** The spellings of the example's strings used below. */
  lemma ExampleSpellings()
    ensures "/octo/octo.github.io.git" == "/octo" + "/" + "octo.github.io.git"
    ensures "octo.github.io.git" == "octo" + (GitSuffix + ("hub.io" + GitSuffix))
    ensures "octo" + "hub.io" == "octohub.io"
  {
  }

  /** `.replace` deletes every `.git`, not only a trailing one: the clone of a repository
      called `octo.github.io` goes to a directory called `octohub.io`. */
  lemma InnerGitRemoved()
    ensures RepoName("/octo/octo.github.io.git") == "octohub.io"
  {
    ExampleSpellings();
    LastSegment("/octo", "octo.github.io.git");
    KeepDotFree("octo", GitSuffix + ("hub.io" + GitSuffix));
    SkipLeadingGit("hub.io" + GitSuffix);
    HubIoHasNoGit();
    RemoveGitSuffix("hub.io");
  }
}
