/**
  Method names and the three fixed tables that classify them: which API
  methods need HTTPS, which are sent by POST, and which carry a file.
 */
module Methods {
  import opened PhpStrings

  /** Turns the PHP-style name `viddler_users_auth` into `viddler.users.auth`. */
  function Normalize(name: string): (m: string)
    ensures |m| == |name|
    ensures '_' !in m
    ensures forall i :: 0 <= i < |name| && name[i] != '_' ==> m[i] == name[i]
    ensures forall i :: 0 <= i < |name| && name[i] == '_' ==> m[i] == '.'
  {
    ReplaceChar(name, '_', '.')
  }

  const SecureMethods: seq<string> := ["viddler.users.auth"]

  /** Listed as written, duplicates and the `playslists` misspelling included. */
  const PostMethods: seq<string> := [
    "viddler.encoding.cancel",
    "viddler.encoding.encode",
    "viddler.encoding.setOptions",
    "viddler.groups.addVideo",
    "viddler.groups.join",
    "viddler.groups.leave",
    "viddler.groups.removeVideo",
    "viddler.playlists.addVideo",
    "viddler.playlists.create",
    "viddler.playlists.delete",
    "viddler.playlists.removeVideo",
    "viddler.playlists.moveVideo",
    "viddler.playslists.setDetails",
    "viddler.users.setSettings",
    "viddler.users.setProfile",
    "viddler.users.setOptions",
    "viddler.users.acceptFriendRequest",
    "viddler.users.ignoreFriendRequest",
    "viddler.users.sendFriendRequest",
    "viddler.users.subscribe",
    "viddler.users.unsubscribe",
    "viddler.videos.setDetails",
    "viddler.videos.setPermalink",
    "viddler.videos.comments.add",
    "viddler.videos.comments.remove",
    "viddler.videos.upload",
    "viddler.videos.delete",
    "viddler.videos.delFile",
    "viddler.videos.favorite",
    "viddler.videos.unfavorite",
    "viddler.videos.setPermalink",
    "viddler.videos.setThumbnail",
    "viddler.videos.setDetails",
    "viddler.videos.enableAds",
    "viddler.videos.disableAds"
  ]

  const BinaryMethods: seq<string> := [
    "viddler.videos.setThumbnail",
    "viddler.videos.upload"
  ]

  predicate IsSecure(m: string) { m in SecureMethods }
  predicate IsPost(m: string) { m in PostMethods }
  predicate IsBinary(m: string) { m in BinaryMethods }

  function Scheme(m: string): string {
    if IsSecure(m) then "https" else "http"
  }

  const ApiRoot := "://api.viddler.com/api/v2/"

  /** The endpoint used when no override URL is given. */
  function DefaultUrl(m: string, responseType: string): string {
    Scheme(m) + ApiRoot + m + "." + responseType
  }

  lemma NormalizeExample(name: string)
    requires name == "viddler_users_auth"
    ensures Normalize(name) == "viddler.users.auth"
  {
    var want := "viddler.users.auth";
    var m := Normalize(name);
    forall i | 0 <= i < |name|
      ensures m[i] == want[i]
    {
      if i == 7 || i == 13 {
        assert name[i] == '_';
      } else {
        assert name[i] != '_' && name[i] == want[i];
      }
    }
    assert m == want;
  }

  /** Normalising twice is the same as normalising once. */
  lemma NormalizeIdempotent(name: string)
    ensures Normalize(Normalize(name)) == Normalize(name)
  {
  }

  /** The only method that is sent over HTTPS is `viddler.users.auth`. */
  lemma SecureTable(m: string)
    ensures IsSecure(m) <==> m == "viddler.users.auth"
    ensures Scheme(m) == "https" <==> m == "viddler.users.auth"
    ensures Scheme(m) == "http" <==> m != "viddler.users.auth"
  {
  }

  /** Both file-carrying methods are also POST methods. */
  lemma BinaryMethodsArePost(m: string)
    ensures IsBinary(m) <==> m == "viddler.videos.upload" || m == "viddler.videos.setThumbnail"
    ensures IsBinary(m) ==> IsPost(m)
  {
  }

  /** The misspelt table entry leaves `viddler.playlists.setDetails` a GET method. */
  lemma PlaylistSetDetailsIsGet()
    ensures !IsPost("viddler.playlists.setDetails")
    ensures IsPost("viddler.playslists.setDetails")
  {
  }
}
