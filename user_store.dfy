/**
 * Usernames from the data directory's entries: keep the names that end in
 * `.json` and drop the first `.json` from each, in directory order. Both
 * listing routes compute the list this way.
 */
module UserStore {
  import opened Wrappers
  import opened JsString

  const JsonExtension := ".json"

  predicate IsJsonFile(name: string) {
    EndsWith(name, JsonExtension)
  }

  /** `files.filter(file => file.endsWith('.json'))`. */
  function JsonFiles(files: seq<string>): (r: seq<string>)
    ensures |r| <= |files|
  {
    if files == [] then []
    else (if IsJsonFile(files[0]) then [files[0]] else []) + JsonFiles(files[1..])
  }

  /** `file.replace('.json', '')`: removes the FIRST `.json`, which need not be the extension. */
  function StripJson(file: string): (name: string)
    ensures |name| <= |file|
    ensures (forall j: nat :: !OccursAt(file, JsonExtension, j)) ==> name == file
  {
    RemoveFirst(file, JsonExtension)
  }

  /** `jsonFiles.map(file => file.replace('.json', ''))`. */
  function Usernames(files: seq<string>): (r: seq<string>)
    ensures |r| <= |files|
  {
    var js := JsonFiles(files);
    seq(|js|, i requires 0 <= i < |js| => StripJson(js[i]))
  }

  /** The filter keeps exactly the `.json` entries. */
  lemma {:induction false} JsonFilesMembers(files: seq<string>, f: string)
    ensures f in JsonFiles(files) <==> f in files && IsJsonFile(f)
  {
    if files != [] {
      JsonFilesMembers(files[1..], f);
      assert files == [files[0]] + files[1..];
    }
  }

  /** Every `.json` entry is kept as often as it is listed, every other entry never. */
  lemma {:induction false} JsonFilesCounts(files: seq<string>, f: string)
    ensures multiset(JsonFiles(files))[f] == if IsJsonFile(f) then multiset(files)[f] else 0
  {
    if files != [] {
      var head := if IsJsonFile(files[0]) then [files[0]] else [];
      JsonFilesCounts(files[1..], f);
      assert JsonFiles(files) == head + JsonFiles(files[1..]);
      assert multiset(JsonFiles(files))[f] == multiset(head)[f] + multiset(JsonFiles(files[1..]))[f];
      assert files == [files[0]] + files[1..];
      assert multiset(files)[f] == multiset([files[0]])[f] + multiset(files[1..])[f];
    }
  }

  /** The filter keeps directory order: it distributes over concatenation. */
  lemma {:induction false} JsonFilesConcat(a: seq<string>, b: seq<string>)
    ensures JsonFiles(a + b) == JsonFiles(a) + JsonFiles(b)
  {
    if a == [] {
      assert a + b == b;
    } else {
      var head := if IsJsonFile(a[0]) then [a[0]] else [];
      calc {
        JsonFiles(a + b);
        { assert (a + b)[0] == a[0]; assert (a + b)[1..] == a[1..] + b; }
        head + JsonFiles(a[1..] + b);
        { JsonFilesConcat(a[1..], b); }
        head + (JsonFiles(a[1..]) + JsonFiles(b));
        (head + JsonFiles(a[1..])) + JsonFiles(b);
        JsonFiles(a) + JsonFiles(b);
      }
    }
  }

  /** The usernames keep directory order: the list of a concatenation is the concatenation of the lists. */
  lemma UsernamesConcat(a: seq<string>, b: seq<string>)
    ensures Usernames(a + b) == Usernames(a) + Usernames(b)
  {
    JsonFilesConcat(a, b);
    var ja, jb := JsonFiles(a), JsonFiles(b);
    var l, r := Usernames(a + b), Usernames(a) + Usernames(b);
    forall i | 0 <= i < |l|
      ensures l[i] == r[i]
    {
      if i < |ja| {
        assert l[i] == StripJson(ja[i]);
      } else {
        assert l[i] == StripJson(jb[i - |ja|]);
      }
    }
  }

  /** A name that ends in `.json` has a first `.json`, and stripping it shortens the name by five. */
  lemma StripJsonLength(f: string)
    requires IsJsonFile(f)
    ensures |StripJson(f)| == |f| - |JsonExtension|
  {
    assert OccursAt(f, JsonExtension, |f| - 5);
  }

  /**
   * Round trip: a username without `.json` in it, saved as `<username>.json`,
   * is listed and stripped back to itself.
   */
  lemma StripJsonRoundTrip(u: string)
    requires forall j: nat :: !OccursAt(u, JsonExtension, j)
    ensures IsJsonFile(u + JsonExtension)
    ensures StripJson(u + JsonExtension) == u
  {
    var s := u + JsonExtension;
    assert s[|u|..] == JsonExtension;
    assert OccursAt(s, JsonExtension, |u|);
    forall j: nat | j < |u|
      ensures !OccursAt(s, JsonExtension, j)
    {
      if j + 5 <= |u| {
        assert s[j..j + 5] == u[j..j + 5];
        assert !OccursAt(u, JsonExtension, j);
      } else {
        assert s[j..j + 5][|u| - j] == s[|u|] == '.';
      }
    }
    assert s[..|u|] + s[|u| + 5..] == u;
  }

  /**
   * The listing links a file as `/<name>` and that route reads
   * `<name>.json`: the same file whenever `.json` occurs in the file name
   * only as its extension.
   */
  lemma ListedNameReadsBack(f: string)
    requires IsJsonFile(f)
    requires forall j: nat :: j < |f| - |JsonExtension| ==> !OccursAt(f, JsonExtension, j)
    ensures StripJson(f) + JsonExtension == f
  {
    var i := |f| - 5;
    assert OccursAt(f, JsonExtension, i);
    assert f[..i] + f[i + 5..] + JsonExtension == f;
  }

  /**
   * With an earlier `.json` the round trip breaks: `x.jsonab.json` is listed
   * as `xab.json`, whose profile route reads `xab.json.json`, another file.
   */
  lemma InnerExtensionReadsOtherFile()
    ensures IsJsonFile("x.jsonab.json")
    ensures StripJson("x.jsonab.json") == "xab.json"
    ensures StripJson("x.jsonab.json") + JsonExtension != "x.jsonab.json"
  {
    var s := "x.jsonab.json";
    assert s[8..] == JsonExtension;
    assert OccursAt(s, JsonExtension, 1);
    assert !OccursAt(s, JsonExtension, 0) by {
      assert s[0..5][0] == 'x';
    }
    assert s[..1] + s[6..] == "xab.json";
    assert ("xab.json" + JsonExtension)[1] != s[1];
  }

  /** Only the first `.json` goes: `a.json.json` lists as `a.json`. */
  lemma DoubleExtension()
    ensures IsJsonFile("a.json.json")
    ensures StripJson("a.json.json") == "a.json"
  {
    var s := "a.json.json";
    assert s[6..] == JsonExtension;
    assert OccursAt(s, JsonExtension, 1);
    assert !OccursAt(s, JsonExtension, 0) by {
      assert s[0..5][0] == 'a';
    }
    assert s[..1] + s[6..] == "a.json";
  }

  /**
   * Two users saved as `<a>.json` and `<b>.json` next to a file of another
   * type list as `a` and `b`, in that order; the other file is dropped.
   */
  lemma ListingKeepsUserFiles(a: string, b: string, other: string)
    requires forall j: nat :: !OccursAt(a, JsonExtension, j)
    requires forall j: nat :: !OccursAt(b, JsonExtension, j)
    requires !IsJsonFile(other)
    ensures Usernames([a + JsonExtension, b + JsonExtension, other]) == [a, b]
  {
    var fa, fb := a + JsonExtension, b + JsonExtension;
    StripJsonRoundTrip(a);
    StripJsonRoundTrip(b);
    TwoJsonFilesKept(fa, fb, other);
    assert Usernames([fa, fb, other])[0] == a;
  }

  /** Of two `.json` files and another file, the filter keeps the two, in order. */
  lemma TwoJsonFilesKept(fa: string, fb: string, other: string)
    requires IsJsonFile(fa) && IsJsonFile(fb) && !IsJsonFile(other)
    ensures JsonFiles([fa, fb, other]) == [fa, fb]
  {
    JsonFilesOfOne(fa);
    JsonFilesOfOne(fb);
    JsonFilesOfOne(other);
    assert [fa, fb, other] == [fa] + [fb] + [other];
    JsonFilesConcat([fa] + [fb], [other]);
    JsonFilesConcat([fa], [fb]);
  }

  /** A one-entry listing keeps its entry exactly when it is a `.json` file. */
  lemma JsonFilesOfOne(f: string)
    ensures JsonFiles([f]) == if IsJsonFile(f) then [f] else []
  {
    assert [f][1..] == [];
  }

  /** A name of lower-case letters contains no `.json`. */
  lemma LowerCaseNameHasNoExtension(u: string)
    requires forall i :: 0 <= i < |u| ==> 'a' <= u[i] <= 'z'
    ensures forall j: nat :: !OccursAt(u, JsonExtension, j)
  {
    forall j: nat | j < |u|
      ensures !OccursAt(u, JsonExtension, j)
    {
      assert 'a' <= u[j] <= 'z';
    }
  }

  /** Listing `alice.json`, `bob.json` and `notes.txt` gives `alice` and `bob`. */
  lemma ListingExample()
    ensures Usernames(["alice.json", "bob.json", "notes.txt"]) == ["alice", "bob"]
  {
    LowerCaseNameHasNoExtension("alice");
    LowerCaseNameHasNoExtension("bob");
    ExampleFileNames();
    ListingKeepsUserFiles("alice", "bob", "notes.txt");
  }

  /** The file names of the example above: two user files and a text file. */
  lemma ExampleFileNames()
    ensures "alice" + JsonExtension == "alice.json" && "bob" + JsonExtension == "bob.json"
    ensures !IsJsonFile("notes.txt")
  {
    assert "notes.txt"[4..][0] == 's';
  }

}
