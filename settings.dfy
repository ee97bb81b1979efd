/** The user administration of `src/pages/settings/SettingsPage.tsx`: the user modal's
    fields, the save handler's guards and writes, and the role badge. */
module Settings {
  import opened Common

  /** A user row; the optional columns may be missing. */
  datatype User = User(id: string, email: string, role: Option<string>, fullName: Option<string>, phone: Option<string>)

  /** The columns a save writes. */
  datatype UserData = UserData(email: string, role: string, fullName: string, phone: string)

  datatype UserWrite = UpdateUser(id: string, data: UserData) | InsertUser(data: UserData)

  const DefaultRole := "user"
  const NoEmail := "Por favor, informe o email"
  const NoPassword := "Por favor, informe a senha"
  const PasswordMismatch := "As senhas não coincidem"

  /** `value || fallback` for an optional text column. */
  function OrElse(value: Option<string>, fallback: string): (r: string)
    ensures value.Some? && value.value != "" ==> r == value.value
    ensures value.None? || value.value == "" ==> r == fallback
  {
    if value.Some? && value.value != "" then value.value else fallback
  }

  /** `handleCreateUser`: the email first; for a new user only, a password and its
      confirmation; then an update of the edited user or an insert. The password itself is
      never written. */
  function SaveUser(editing: Option<User>, email: string, password: string, confirmPassword: string,
                    role: string, fullName: string, phone: string): (o: Outcome<UserWrite>)
    ensures email == "" ==> o == Rejected(NoEmail)
    ensures email != "" && editing.None? && password == "" ==> o == Rejected(NoPassword)
    ensures email != "" && editing.None? && password != "" && password != confirmPassword ==> o == Rejected(PasswordMismatch)
    ensures o.Write? <==> email != "" && (editing.Some? || (password != "" && password == confirmPassword))
    ensures o.Write? && editing.Some? ==> o.payload == UpdateUser(editing.value.id, UserData(email, role, fullName, phone))
    ensures o.Write? && editing.None? ==> o.payload == InsertUser(UserData(email, role, fullName, phone))
  {
    if email == "" then Rejected(NoEmail)
    else if editing.None? && password == "" then Rejected(NoPassword)
    else if editing.None? && password != confirmPassword then Rejected(PasswordMismatch)
    else match editing
      case Some(u) => Write(UpdateUser(u.id, UserData(email, role, fullName, phone)))
      case None => Write(InsertUser(UserData(email, role, fullName, phone)))
  }

  /** When editing, the password fields play no part in the decision. */
  lemma EditIgnoresPasswords(u: User, email: string, p: string, c: string, p': string, c': string,
                             role: string, fullName: string, phone: string)
    ensures SaveUser(Some(u), email, p, c, role, fullName, phone) == SaveUser(Some(u), email, p', c', role, fullName, phone)
  {
  }

  /** The modal's form state. */
  class UserModal {
    var editing: Option<User>
    var email: string
    var password: string
    var confirmPassword: string
    var role: string
    var fullName: string
    var phone: string
    var isOpen: bool

    constructor()
      ensures editing == None && email == "" && password == "" && confirmPassword == ""
      ensures role == DefaultRole && fullName == "" && phone == "" && !isOpen
    {
      editing, email, password, confirmPassword := None, "", "", "";
      role, fullName, phone, isOpen := DefaultRole, "", "", false;
    }

    /** `handleOpenUserModal(user?)` */
    method Open(user: Option<User>)
      modifies this
      ensures editing == user && isOpen && password == "" && confirmPassword == ""
      ensures user.Some? ==> email == user.value.email && role == OrElse(user.value.role, DefaultRole)
                             && fullName == OrElse(user.value.fullName, "") && phone == OrElse(user.value.phone, "")
      ensures user.None? ==> email == "" && role == DefaultRole && fullName == "" && phone == ""
    {
      editing := user;
      match user {
        case Some(u) =>
          email := u.email;
          role := OrElse(u.role, DefaultRole);
          fullName := OrElse(u.fullName, "");
          phone := OrElse(u.phone, "");
          password := "";
          confirmPassword := "";
        case None =>
          email := "";
          password := "";
          confirmPassword := "";
          role := DefaultRole;
          fullName := "";
          phone := "";
      }
      isOpen := true;
    }

    /** `handleCreateUser`'s decision, from the form's fields. */
    method Save() returns (o: Outcome<UserWrite>)
      ensures o == SaveUser(editing, email, password, confirmPassword, role, fullName, phone)
    {
      o := SaveUser(editing, email, password, confirmPassword, role, fullName, phone);
    }
  }

  /** Saving straight after opening: an existing user with an email is written back under
      its id with the defaults filled in; a fresh form is refused for its missing email. */
  lemma SaveAfterOpen(u: User)
    requires u.email != ""
    ensures SaveUser(Some(u), u.email, "", "", OrElse(u.role, DefaultRole), OrElse(u.fullName, ""), OrElse(u.phone, ""))
         == Write(UpdateUser(u.id, UserData(u.email, OrElse(u.role, DefaultRole), OrElse(u.fullName, ""), OrElse(u.phone, ""))))
    ensures SaveUser(None, "", "", "", DefaultRole, "", "") == Rejected(NoEmail)
  {
  }

  // ------------------------------------------------------------ role badge

  datatype Badge = Badge(variant: string, text: string)

  /** `getRoleBadge` */
  function RoleBadge(role: string): (b: Badge)
    ensures role !in ["admin", "teacher", "social_worker", "health_professional"] ==> b == Badge("secondary", "Usuário")
  {
    match role
    case "admin" => Badge("danger", "Administrador")
    case "teacher" => Badge("info", "Professor")
    case "social_worker" => Badge("warning", "Assistente Social")
    case "health_professional" => Badge("success", "Profissional de Saúde")
    case _ => Badge("secondary", "Usuário")
  }

  /** The four named roles get four different badges, none of them the generic one. */
  lemma RoleBadgesDistinct(a: string, b: string)
    requires a in ["admin", "teacher", "social_worker", "health_professional"]
    requires b in ["admin", "teacher", "social_worker", "health_professional"]
    requires a != b
    ensures RoleBadge(a) != RoleBadge(b)
    ensures RoleBadge(a) != Badge("secondary", "Usuário")
  {
  }
}
