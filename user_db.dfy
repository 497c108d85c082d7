/**
 * The server's USER table (PSIproject/Server/DataBase.py): USERNAME is the
 * primary key and PASSWD the stored password. The sqlite file is modelled as
 * a map from user name to password held by the object; the lock and the
 * connection are left out.
 */
module UserDb {
  import opened Wrappers

  /** sqlite3.IntegrityError: the primary key USERNAME is already taken. */
  datatype DbError = UsernameTaken(username: string)

  /** A USER row as fetchall() returns it: (USERNAME, PASSWD). */
  datatype UserRow = UserRow(username: string, password: string)

  class UserTable {
    var users: map<string, string>

    /** The table as it stands in users.db when the object is built; CREATE TABLE IF NOT EXISTS keeps it. */
    constructor(stored: map<string, string>)
      ensures users == stored
    {
      users := stored;
    }

    /** addUser: INSERT INTO USER; a taken username raises and inserts nothing. */
    method AddUser(username: string, password: string) returns (r: Result<(), DbError>)
      modifies this
      ensures username in old(users) ==> r == Failure(UsernameTaken(username)) && users == old(users)
      ensures username !in old(users) ==> r == Success(()) && users == old(users)[username := password]
      ensures username in users
    {
      if username in users {
        return Failure(UsernameTaken(username));
      }
      users := users[username := password];
      r := Success(());
    }

    /** searchUser: whether some row has this USERNAME. */
    method SearchUser(username: string) returns (found: bool)
      ensures found <==> username in users
    {
      found := username in users;
    }

    /**
     * searchUserPassword: (True, row) when a row matches both the name and
     * the password, else (False, ""); the "" is None here.
     */
    method SearchUserPassword(username: string, password: string) returns (found: bool, row: Option<UserRow>)
      ensures found <==> username in users && users[username] == password
      ensures found ==> row == Some(UserRow(username, password))
      ensures !found ==> row == None
      ensures found ==> username in users
    {
      if username in users && users[username] == password {
        found, row := true, Some(UserRow(username, password));
      } else {
        found, row := false, None;
      }
    }
  }
}
