/** The public id of a hosted image, as both controllers compute it before
    asking the host to destroy the image: `url.split('/').pop().split('.')[0]`. */
module ImageIds {
  import opened Sequences

  /** JavaScript's `s.split(c)`: the pieces between occurrences of `c`; never empty. */
  function Split(s: string, c: char): (pieces: seq<string>)
    ensures |pieces| >= 1
    ensures forall k :: 0 <= k < |pieces| ==> c !in pieces[k]
  {
    if s == [] then [""]
    else
      var rest := Split(s[1..], c);
      if s[0] == c then [""] + rest
      else [[s[0]] + rest[0]] + rest[1..]
  }

  /** Joining the pieces back with `c` gives the original string. */
  function Join(pieces: seq<string>, c: char): string
    requires |pieces| >= 1
  {
    if |pieces| == 1 then pieces[0] else pieces[0] + [c] + Join(pieces[1..], c)
  }

  lemma {:induction false} SplitJoin(s: string, c: char)
    ensures Join(Split(s, c), c) == s
  {
    if s != [] {
      var rest := Split(s[1..], c);
      SplitJoin(s[1..], c);
      if s[0] == c {
        assert Split(s, c) == [""] + rest;
        assert ([""] + rest)[1..] == rest;
      } else {
        var ps := Split(s, c);
        assert ps == [[s[0]] + rest[0]] + rest[1..];
        if |rest| > 1 {
          assert ps[1..] == rest[1..];
          assert Join(rest, c) == rest[0] + [c] + Join(rest[1..], c);
        }
        assert s == [s[0]] + s[1..];
      }
    }
  }

  /** The first piece is the prefix of `s` before its first `c`. */
  lemma {:induction false} SplitFirst(s: string, c: char)
    ensures Split(s, c)[0] == s[..FirstOf(s, c)]
  {
    if s != [] && s[0] != c {
      SplitFirst(s[1..], c);
      assert s[..FirstOf(s, c)] == [s[0]] + s[1..][..FirstOf(s[1..], c)];
    }
  }

  /** The position just after the last `c` in `s`, or 0 when there is none. */
  function AfterLast(s: string, c: char): (p: nat)
    ensures p <= |s|
    ensures p > 0 ==> s[p - 1] == c
    ensures forall k :: p <= k < |s| ==> s[k] != c
  {
    if s == [] then 0
    else
      var p := AfterLast(s[1..], c);
      if p > 0 then p + 1
      else if s[0] == c then 1
      else 0
  }

  /** The last piece is the suffix of `s` after its last `c`; it is the only
      piece exactly when `s` has no `c`. */
  lemma {:induction false} SplitLast(s: string, c: char)
    ensures var ps := Split(s, c);
      ps[|ps| - 1] == s[AfterLast(s, c)..] && (AfterLast(s, c) == 0 <==> |ps| == 1)
  {
    if s != [] {
      var rest := Split(s[1..], c);
      SplitLast(s[1..], c);
      var ps := Split(s, c);
      var p := AfterLast(s[1..], c);
      if s[0] == c {
        assert ps == [""] + rest;
        assert ps[|ps| - 1] == rest[|rest| - 1];
      } else {
        assert ps == [[s[0]] + rest[0]] + rest[1..];
        if |rest| == 1 {
          assert s == [s[0]] + s[1..];
        } else {
          assert ps[|ps| - 1] == rest[|rest| - 1];
        }
      }
      assert s[1..][p..] == s[AfterLast(s, c)..] || p == 0;
    }
  }

  /** `url.split('/').pop().split('.')[0]`: the last `/`-segment of the url
      cut at its first `.`. It holds neither separator, what precedes it is
      empty or ends with `/`, and what follows it has no `/` and is empty or
      starts with `.`. */
  function PublicId(url: string): (id: string)
    ensures '/' !in id && '.' !in id
    ensures exists pre, post :: IsCut(url, pre, id, post)
  {
    var segments := Split(url, '/');
    var last := segments[|segments| - 1];
    SplitLast(url, '/');
    SplitFirst(last, '.');
    CutAt(url, AfterLast(url, '/'), last, FirstOf(last, '.'));
    Split(last, '.')[0]
  }

  /** Cutting the suffix after the last `/` at its first `.`. */
  lemma CutAt(url: string, p: nat, last: string, q: nat)
    requires p <= |url| && last == url[p..] && '/' !in last
    requires p > 0 ==> url[p - 1] == '/'
    requires q <= |last| && (q < |last| ==> last[q] == '.')
    requires forall k :: 0 <= k < q ==> last[k] != '.'
    ensures IsCut(url, url[..p], last[..q], last[q..])
  {
    assert url == url[..p] + last[..q] + last[q..];
    assert '.' !in last[..q];
  }

  /** `url` is `pre + id + post` where `id` is its last `/`-segment up to the first `.`. */
  predicate IsCut(url: string, pre: string, id: string, post: string)
  {
    && url == pre + id + post
    && (pre == [] || pre[|pre| - 1] == '/')
    && '/' !in id && '.' !in id
    && '/' !in post
    && (post == [] || post[0] == '.')
  }

  /** The pieces of a string made of two parts around a separator. */
  lemma {:induction false} SplitAround(a: string, c: char, b: string)
    ensures Split(a + [c] + b, c) == Split(a, c) + Split(b, c)
  {
    if a == [] {
      assert a + [c] + b == [c] + b;
      assert ([c] + b)[1..] == b;
    } else {
      assert (a + [c] + b)[1..] == a[1..] + [c] + b;
      SplitAround(a[1..], c, b);
    }
  }

  lemma {:induction false} SplitWithout(s: string, c: char)
    requires c !in s
    ensures Split(s, c) == [s]
  {
    if s != [] {
      SplitWithout(s[1..], c);
      assert s == [s[0]] + s[1..];
    }
  }

  /** A hosted image url of the usual shape gives the file name without its extension. */
  lemma PublicIdOfHostedUrl(dir: string, name: string, ext: string)
    requires '/' !in name && '.' !in name && '/' !in ext
    ensures PublicId(dir + "/" + name + "." + ext) == name
  {
    var file := name + "." + ext;
    assert '/' !in file;
    assert dir + "/" + name + "." + ext == dir + ['/'] + file;
    SplitAround(dir, '/', file);
    SplitWithout(file, '/');
    SplitAround(name, '.', ext);
    SplitWithout(name, '.');
  }

  /** The example the controller documents. */
  lemma DocumentedExample()
    ensures PublicId("https://res.cloudinary.com/afihwoxs/image/upload/v1231231/abcdefg.png") == "abcdefg"
  {
    PublicIdOfHostedUrl("https://res.cloudinary.com/afihwoxs/image/upload/v1231231", "abcdefg", "png");
    assert "https://res.cloudinary.com/afihwoxs/image/upload/v1231231" + "/" + "abcdefg" + "." + "png"
        == "https://res.cloudinary.com/afihwoxs/image/upload/v1231231/abcdefg.png";
  }
}
