/**
 * The server's registry of logged-in users and its menu text
 * (Server/UserInterFace.py). The registry is a dict from user name to the
 * client's socket, kept in insertion order as Python dicts are; one object
 * stands for the class-level dict every session shares.
 */
module Online {
  import opened Wrappers
  import opened Strings
  import opened Dicts

  /** A client socket, known only by identity. */
  datatype Connection = Connection(id: nat)

  /** KeyError from dict.pop on a user who is not online. */
  datatype RegistryError = KeyError(username: string)

  /**
   * The pieces getInitUI joins. Options 2 and 3 form one piece: their two
   * literals have no comma between them, so Python glues them together.
   */
  const MenuLines: seq<string> := [
    "Options:\n",
    " 1. Check Online user\n",
    " 2. Send Merge Request\n" + " 3. Check Merge Request\n",
    " 4. Confirm Merge Request\n",
    " 5. Start Merge Request\n",
    " 6. Send CID\n",
    " 7. Upload to IPFS\n",
    " 8. Get Partner CID\n",
    " 9. Download from IPFS"]

  /** getInitUI: "".join of the menu pieces. */
  function GetInitUI(): string {
    Join(MenuLines, "")
  }

  lemma JoinNoSeparator(parts: seq<string>, k: nat)
    requires 0 < k < |parts|
    ensures Join(parts[..k + 1], "") == Join(parts[..k], "") + parts[k]
  {
    assert parts[..k + 1][..k] == parts[..k];
  }

  lemma JoinNinePieces(m: seq<string>)
    requires |m| == 9
    ensures Join(m, "") == m[0] + m[1] + m[2] + m[3] + m[4] + m[5] + m[6] + m[7] + m[8]
  {
    assert Join(m[..1], "") == m[0];
    JoinNoSeparator(m, 1);
    JoinNoSeparator(m, 2);
    JoinNoSeparator(m, 3);
    JoinNoSeparator(m, 4);
    JoinNoSeparator(m, 5);
    JoinNoSeparator(m, 6);
    JoinNoSeparator(m, 7);
    JoinNoSeparator(m, 8);
    assert m[..9] == m;
  }

  /** The menu is the pieces one after the other, with nothing between them. */
  lemma InitUIIsMenu()
    ensures GetInitUI() == MenuLines[0] + MenuLines[1] + MenuLines[2] + MenuLines[3] + MenuLines[4]
      + MenuLines[5] + MenuLines[6] + MenuLines[7] + MenuLines[8]
  {
    JoinNinePieces(MenuLines);
  }

  class LoginUsers {
    var online: Dict<string, Connection>

    /** _OnlineLoginUsers = {} */
    constructor()
      ensures online == Empty()
    {
      online := Empty();
    }

    /**
     * update_Online_LoginUsers: a login sets the user's entry (replacing an
     * earlier socket, keeping its place); a logout pops it, and raises
     * KeyError, changing nothing, when the user is not online.
     */
    method Update(username: string, client: Connection, isLogin: bool) returns (r: Result<(), RegistryError>)
      modifies this
      ensures isLogin ==> r == Success(()) && online == Put(old(online), username, client)
      ensures !isLogin && username in old(online.entries) ==> r == Success(()) && online == Remove(old(online), username)
      ensures !isLogin && username !in old(online.entries) ==> r == Failure(KeyError(username)) && online == old(online)
    {
      if isLogin {
        online := Put(online, username, client);
        r := Success(());
      } else if username in online.entries {
        online := Remove(online, username);
        r := Success(());
      } else {
        r := Failure(KeyError(username));
      }
    }

    /** list(_OnlineLoginUsers.keys()): the online users in login order. */
    method OnlineUsers() returns (names: seq<string>)
      ensures Distinct(names) && forall u :: u in names <==> u in online.entries
      ensures names == online.order
    {
      names := online.order;
    }
  }

  /** A logout of the user who just logged in, having been absent, restores the registry. */
  lemma LoginThenLogout(online: Dict<string, Connection>, username: string, client: Connection)
    requires username !in online.entries
    ensures username in Put(online, username, client).entries
    ensures Remove(Put(online, username, client), username) == online
  {
    PutThenRemove(online, username, client);
  }

  /** Logging one user in or out leaves every other user's entry as it was. */
  lemma UpdateKeepsOthers(online: Dict<string, Connection>, username: string, client: Connection, other: string)
    requires other != username
    ensures other in Put(online, username, client).entries <==> other in online.entries
    ensures other in online.entries ==> Put(online, username, client).entries[other] == online.entries[other]
    ensures username in online.entries ==>
      (other in Remove(online, username).entries <==> other in online.entries)
      && (other in online.entries ==> Remove(online, username).entries[other] == online.entries[other])
  {
  }
}
