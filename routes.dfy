/**
 * The four routes as functions from what the filesystem and `JSON.parse`
 * reported to the response: a status code and the kind of body. The
 * directory listing and the read outcome are inputs; the reading itself is
 * not modelled.
 */
module Routes {
  import opened Wrappers
  import opened JsValue
  import JsString
  import UserStore
  import Profile

  /** What `fs.readdir` reported for the data directory. */
  datatype DirListing = DirError | Entries(names: seq<string>)

  /** What reading and parsing `<username>.json` gave. */
  datatype ReadOutcome =
    | NotFound           // `fs.readFile` failed with ENOENT
    | ReadFailed         // `fs.readFile` failed with any other code
    | Unparsable         // `JSON.parse` threw
    | Parsed(record: Json)

  /** A link of the listing page: `<a href="<href>"><text></a>`. */
  datatype Link = Link(href: string, text: string)

  datatype Body =
    | JsonBody(value: Json)            // `res.json(value)`
    | TextBody(text: string)           // `res.send` of a plain string
    | UserListPage(links: seq<Link>)   // the listing page, one `<li>` per link
    | NotFoundPage(message: string)    // the "User Not Found" page and its sentence
    | ProfilePage(view: Profile.ProfileView)

  datatype Response = Response(status: int, body: Body)

  /** The `{ error: message }` object of the JSON routes. */
  function ErrorJson(message: string): Json {
    JObj(map["error" := JStr(message)])
  }

  /** One link per username, to `/<username>`, in list order. */
  function ListLinks(usernames: seq<string>): (links: seq<Link>)
    ensures |links| == |usernames|
    ensures forall i :: 0 <= i < |links| ==> links[i].text == usernames[i] && links[i].href == "/" + usernames[i]
  {
    seq(|usernames|, i requires 0 <= i < |usernames| => Link("/" + usernames[i], usernames[i]))
  }

  /** `GET /`: the listing page, one link per username; 500 when the directory cannot be read. */
  function UserListRoute(d: DirListing): (r: Response)
    ensures r.status == 200 <==> d.Entries?
    ensures d.DirError? ==> r == Response(500, TextBody("Error reading data directory"))
    ensures d.Entries? ==> r.body.UserListPage? && |r.body.links| == |UserStore.Usernames(d.names)|
  {
    match d
    case DirError => Response(500, TextBody("Error reading data directory"))
    case Entries(files) => Response(200, UserListPage(ListLinks(UserStore.Usernames(files))))
  }

  /** `GET /api/users`: the usernames as a JSON array of strings, in order. */
  function ApiUsersRoute(d: DirListing): (r: Response)
    ensures r.status == 200 <==> d.Entries?
    ensures d.DirError? ==> r == Response(500, JsonBody(ErrorJson("Error reading data directory")))
    ensures d.Entries? ==>
      r.body.JsonBody? && r.body.value.JArr? && |r.body.value.items| == |UserStore.Usernames(d.names)|
      && forall i :: 0 <= i < |r.body.value.items| ==> r.body.value.items[i] == JStr(UserStore.Usernames(d.names)[i])
  {
    match d
    case DirError => Response(500, JsonBody(ErrorJson("Error reading data directory")))
    case Entries(files) =>
      var us := UserStore.Usernames(files);
      Response(200, JsonBody(JArr(seq(|us|, i requires 0 <= i < |us| => JStr(us[i])))))
  }

  /** `GET /api/users/:username`: the parsed record itself, or an error object. */
  function ApiUserRoute(o: ReadOutcome): (r: Response)
    ensures r.status in {200, 404, 500}
    ensures r.status == 404 <==> o.NotFound?
    ensures r.status == 200 <==> o.Parsed?
    ensures o.Parsed? ==> r.body == JsonBody(o.record)
    ensures !o.Parsed? ==> r.body.JsonBody? && r.body.value.JObj? && r.body.value.members.Keys == {"error"}
  {
    match o
    case NotFound => Response(404, JsonBody(ErrorJson("User not found")))
    case ReadFailed => Response(500, JsonBody(ErrorJson("Error reading user file")))
    case Unparsable => Response(500, JsonBody(ErrorJson("Error parsing user data")))
    case Parsed(record) => Response(200, JsonBody(record))
  }

  /** The sentence of the "User Not Found" page. */
  function NotFoundMessage(username: string): string {
    "The user \"" + username + "\" does not exist."
  }

  /** `GET /:username`; a render that throws is answered like a parse failure. */
  function ProfileRoute(username: string, o: ReadOutcome): (r: Response)
    ensures r.status in {200, 404, 500}
    ensures r.status == 404 <==> o.NotFound?
    ensures r.status == 200 <==> o.Parsed? && Profile.Render(username, o.record).Success?
    ensures r.status == 200 ==> r.body == ProfilePage(Profile.Render(username, o.record).value)
    ensures r.status == 500 ==> r.body.TextBody?
  {
    match o
    case NotFound => Response(404, NotFoundPage(NotFoundMessage(username)))
    case ReadFailed => Response(500, TextBody("Error reading user file"))
    case Unparsable => Response(500, TextBody("Error parsing user data"))
    case Parsed(record) =>
      match Profile.Render(username, record)
      case Success(view) => Response(200, ProfilePage(view))
      case Failure(_) => Response(500, TextBody("Error parsing user data"))
  }

  ghost predicate Contains(s: string, t: string) {
    exists k: nat :: JsString.OccursAt(s, t, k)
  }

  /**
   * The two listing routes agree: both fail with 500 exactly when the
   * directory cannot be read, and otherwise the JSON array holds, in order,
   * exactly the names the page links to, each link pointing at `/<name>`.
   */
  lemma ListRoutesAgree(d: DirListing)
    ensures UserListRoute(d).status == ApiUsersRoute(d).status
    ensures UserListRoute(d).status == 200 <==> d.Entries?
    ensures d.DirError? ==> UserListRoute(d).status == 500
    ensures d.Entries? ==>
      var links := UserListRoute(d).body.links;
      var items := ApiUsersRoute(d).body.value.items;
      |links| == |items| == |UserStore.Usernames(d.names)| <= |d.names|
      && forall i :: 0 <= i < |links| ==>
        items[i] == JStr(links[i].text) && links[i].text == UserStore.Usernames(d.names)[i]
        && links[i].href == "/" + links[i].text
  {
  }

  /**
   * `/api/users/:username`: 404 exactly for a missing file, 200 exactly for
   * a parsed record, whose JSON is sent back unchanged, and 500 with the
   * matching error message otherwise.
   */
  lemma ApiUserOutcomes(o: ReadOutcome)
    ensures ApiUserRoute(o).status == 404 <==> o.NotFound?
    ensures ApiUserRoute(o).status == 200 <==> o.Parsed?
    ensures ApiUserRoute(o).status in {200, 404, 500}
    ensures o.Parsed? ==> ApiUserRoute(o).body == JsonBody(o.record)
    ensures o.NotFound? ==> ApiUserRoute(o).body == JsonBody(ErrorJson("User not found"))
    ensures o.ReadFailed? ==> ApiUserRoute(o).body == JsonBody(ErrorJson("Error reading user file"))
    ensures o.Unparsable? ==> ApiUserRoute(o).body == JsonBody(ErrorJson("Error parsing user data"))
  {
  }

  /**
   * `/:username`: 404 exactly for a missing file, with a page naming the
   * username; 200 exactly when the record parsed and rendered; 500 with a
   * plain-text message otherwise.
   */
  lemma ProfileOutcomes(username: string, o: ReadOutcome)
    ensures ProfileRoute(username, o).status == 404 <==> o.NotFound?
    ensures o.NotFound? ==>
      ProfileRoute(username, o).body.NotFoundPage? && Contains(ProfileRoute(username, o).body.message, username)
    ensures ProfileRoute(username, o).status == 200 <==> o.Parsed? && Profile.Render(username, o.record).Success?
    ensures ProfileRoute(username, o).status == 200 ==>
      ProfileRoute(username, o).body == ProfilePage(Profile.Render(username, o.record).value)
    ensures ProfileRoute(username, o).status == 500 <==> !o.NotFound? && ProfileRoute(username, o).status != 200
    ensures ProfileRoute(username, o).status == 500 ==> ProfileRoute(username, o).body.TextBody?
  {
    if o.NotFound? {
      var m := NotFoundMessage(username);
      assert JsString.OccursAt(m, username, 10);
    }
  }

  /**
   * The two per-user routes give the same status for every outcome, except
   * a parsed record that cannot be rendered: the JSON route still answers
   * 200, the page route 500.
   */
  lemma UserRoutesAgree(username: string, o: ReadOutcome)
    ensures !(o.Parsed? && Profile.Render(username, o.record).Failure?) ==>
      ApiUserRoute(o).status == ProfileRoute(username, o).status
    ensures o.Parsed? && Profile.Render(username, o.record).Failure? ==>
      ApiUserRoute(o).status == 200 && ProfileRoute(username, o).status == 500
  {
  }

  /**
   * A record whose `name` is an object with its own `toString` member reads
   * fine, but cannot be shown: the JSON route answers 200, the page 500.
   */
  lemma UnprintableNameIsServerError(username: string)
    ensures var o := Parsed(JObj(map["name" := JObj(map["toString" := JNum(1.0)])]));
      ApiUserRoute(o).status == 200 && ProfileRoute(username, o).status == 500
  {
    var record := JObj(map["name" := JObj(map["toString" := JNum(1.0)])]);
    assert Profile.ThrowsWhenShown(Get(record, "name"));
    Profile.RenderFailsExactly(username, record);
  }
}
