# Serializers and login gate of an office-automation backend, in Dafny

This project models `oaauth/serializers.py` of an office-automation web
application (a Django REST Framework backend). That file maps users and
departments to and from their wire representations. It also adds an
authorization check to the login-token flow.

- **Records and tables** (`models.dfy`, module `Models`). A user (`OAUser`)
  and a department (`OADepartment`) are datatypes. A department's `leader` is
  free text and its `manager` is a user's uid. The two tables are sequences in
  `Db`. The ORM lookups are recursive functions: by primary key, and
  `filter(leader=...)`. Referential integrity (`Consistent`) is a predicate,
  because the database guarantees it. A user model instance is the class
  `UserInstance`; the serializer changes its attributes in place.
- **Values and dictionaries** (`json.dfy`, module `Json`). A representation
  is a `map<string, Value>`. A Python `dict` that the code changes in place
  with `pop` and item assignment is the class `Dict`. `Truthy` is Python's
  truth value.
- **Field visibility** (`fields.dfy`, module `Fields`). Each serializer's
  declared fields carry a write-only or read-only flag. The read shape and
  the write shape are derived from those flags, and lemmas pin the exact
  shape of each serializer.
- **`SimpleUserSerializer`, `DepartmentSerializer`, `UserSerializer`,
  `MyTokenObtainPairSerializer`, `UserRegisterSerializer`**: one module per
  class. The modules are `SimpleUserSerializer`, `DepartmentSerializer`,
  `UserSerializer`, `TokenSerializer` and `UserRegisterSerializer`.

Calls into code outside the file are parameters of the model:

- password hashing (`hasher: string -> string`);
- `create_user` (`createUser`);
- the token library's own `validate` (`base`), which checks credentials and
  returns the authenticated user with the token data, or fails.

A method that the source writes with in-place steps (`to_representation`,
`update`, `validate`) is a Dafny method proved equal to a specification
function, and the properties are stated on that function. The two `create`
methods are proved only to hand their validated data to the `createUser`
parameter; what that data holds is stated on the `ValidatedData` functions.

Two facts of the code shape the model:

- `UserSerializer.create` pops `department` only when it is absent, so the pop
  removes nothing. `UserSerializer.Create` proves that `create_user` gets the
  validated data unchanged.
- The standard department representation always holds `manager_info`, which
  is null without a manager, so a department read always has a `manager` key.

## Model

| member | source | states |
|---|---|---|
| Models.FindUser | oaauth/serializers.py:16 | the manager lookup finds a user exactly when some row has that uid, and the user it returns has that uid |
| Models.FindDepartment | oaauth/serializers.py:43-44 | a department lookup by id succeeds exactly when some row has that id, and returns that row |
| Models.FilterByLeader | oaauth/serializers.py:91 | the filtered rows are exactly the table rows whose leader text equals the given name |
| Models.SetAttributesField | oaauth/serializers.py:72 | after the generic update, each attribute present in the validated data holds its new value and every other attribute keeps its old one |
| Models.SetAttributesFields | oaauth/serializers.py:72 | the same, for every user attribute at once |
| Models.UserInstance.SetPassword | oaauth/serializers.py:71 | the stored password becomes the hash of the raw one, and no other attribute changes |
| Models.UserInstance.Assign | oaauth/serializers.py:72 | the instance becomes the result of the generic update of its old record |
| Fields.SimpleUserShape | oaauth/serializers.py:7-10 | the reduced user view reads exactly `uid` and `realname` |
| Fields.DepartmentShape | oaauth/serializers.py:16-28 | a department is read with `manager_info` and never the raw `manager`; it is written with `manager`, never with `manager_info` or the read-only auto key `id` |
| Fields.UserReadShape | oaauth/serializers.py:41-60 | a user read holds exactly nine fields: no `password`, no `department_id`, and the nested `department` |
| Fields.UserWriteShape | oaauth/serializers.py:41-60 | a user write accepts `password` and `department_id`, but not the read-only `department` |
| Fields.RegisterShape | oaauth/serializers.py:107-111 | registration accepts all six declared fields, and `password` is never read back |
| SimpleUserSerializer.Representation | oaauth/serializers.py:7-10 | the reduced view has exactly the keys `uid` and `realname`, holding the user's values |
| DepartmentSerializer.ManagerInfo | oaauth/serializers.py:16 | `manager_info` is `None` without a manager, otherwise the reduced view of the user the manager uid names |
| DepartmentSerializer.ManagerInfoIsManagerRow | oaauth/serializers.py:16 | since `uid` is a primary key, `manager_info` is the reduced view of the one user row the manager uid names |
| DepartmentSerializer.StandardRepresentation | oaauth/serializers.py:13-32 | the standard read has `id`, `name`, `intro`, `leader` with the department's values and `manager_info`, and not the write-only `manager` |
| DepartmentSerializer.MoveManagerInfo | oaauth/serializers.py:33-34 | the output has no `manager_info`; its `manager` is the former `manager_info` value, or `None` when that key was absent; every other key and its value is unchanged |
| DepartmentSerializer.Read | oaauth/serializers.py:30-35 | a department read has exactly `id`, `name`, `intro`, `leader` and `manager`; `manager` is `None` exactly when there is no manager, and otherwise an object with exactly `uid` and `realname`, never the raw uid |
| DepartmentSerializer.ToRepresentation | oaauth/serializers.py:30-35 | the in-place pop-and-assign on the standard representation returns the department read |
| UserSerializer.DepartmentView | oaauth/serializers.py:41 | the nested `department` is `None` without a department, otherwise an object whose `id` is the user's department id |
| UserSerializer.DepartmentViewIsRead | oaauth/serializers.py:41 | since department ids are primary keys, the nested `department` is the full department read of the one row the user's department id names |
| UserSerializer.Representation | oaauth/serializers.py:38-60 | given the nested department value, a user read has exactly the readable declared fields, never `password` or `department_id`; `department` holds that value, and every other key holds the user's attribute |
| UserSerializer.Read | oaauth/serializers.py:38-60 | a user read against the tables has exactly the readable declared fields, never `password` or `department_id`; `department` is the nested department view, and every other key holds the user's attribute |
| UserSerializer.ResolveDepartment | oaauth/serializers.py:43-49 | `department_id` may be null, and the empty string counts as null; an integer is accepted exactly when a department has that id, otherwise the error is does-not-exist; any other value has the wrong type |
| UserSerializer.ValidatedData | oaauth/serializers.py:41-60 | `department_id` is optional; when given, validation succeeds exactly when it resolves, and its value is stored under `department`; the rest are exactly the writable input fields, unchanged |
| UserSerializer.Updated | oaauth/serializers.py:68-72 | a truthy password is stored hashed; an absent or falsy one leaves the stored password as it was; every other attribute takes its supplied value or keeps its old one |
| UserSerializer.Update | oaauth/serializers.py:68-72 | the instance ends as `Updated` of its old record, and `password` is popped from the validated data |
| UserSerializer.Create | oaauth/serializers.py:62-66 | `create_user` receives exactly the validated data, because the guarded pop removes nothing |
| UserSerializer.DepartmentIdRoundTrip | oaauth/serializers.py:41-72 | writing an existing department id and reading the user back gives a nested department whose `id` is the id written |
| UserSerializer.EmptyDepartmentIdClears | oaauth/serializers.py:41-72 | writing an empty `department_id` validates, clears the user's department, and the user read back has a null `department` |
| TokenSerializer.MayLogInIff | oaauth/serializers.py:86-94 | login is allowed exactly when the user is staff or some department's leader text equals the user's real name |
| TokenSerializer.Outcome | oaauth/serializers.py:76-105 | a failed credential check yields the credential error; otherwise an unauthorized user gets the `authorization` error, and an authorized one gets the base data plus `realname` and `email`, with every other key unchanged |
| TokenSerializer.EmptyNameLeader | oaauth/serializers.py:91-94 | a non-staff user whose real name is empty may log in as soon as some department's leader text is empty |
| TokenSerializer.Validate | oaauth/serializers.py:76-105 | the in-place method returns exactly `Outcome` |
| UserRegisterSerializer.ValidatedData | oaauth/serializers.py:107-111 | registration keeps exactly the input keys among the six declared fields; `department` is resolved against the department table (null or empty clears it, an unknown id fails with does-not-exist, another type is rejected); undeclared keys such as `uid` and `is_active` are dropped; every other value, the plaintext `password` included, is passed on unchanged up to trimming |

## Left out

- `models.py` is not part of this model. The following are assumptions about it:
  - department ids are integers and user uids are strings;
  - `status` is an integer and `date_joined` a string;
  - the department's `id` is an auto primary key, so a model serializer makes it read-only, and the user's `department` foreign key is nullable;
  - the other flags that Django derives from model fields are not modelled: which fields are required or nullable. Apart from those two, only the flags declared in `serializers.py` are modelled.
- The department write path (validation of the raw `manager` uid) is not modelled. Whether `manager` accepts null depends on the model field, and that field is not visible here.
- Generic field validation of the framework is not modelled: type coercion, required fields, lengths, email format, and the whitespace trimming of character fields, passwords included. Validated data is assumed to carry the type of each attribute (`WellTyped`). The model covers only the department related fields: the declared `department_id` of `UserSerializer` and the generated `department` of `UserRegisterSerializer`.
- UserSerializer.ResolveDepartment: does not model the ORM's coercion of numeric strings (such as `"3"`) to primary keys. The empty string is read as null; any other string is treated as the wrong type.
- Representations and declared field lists are maps. The key order of the framework's ordered dictionaries and of the `fields` lists is therefore not modelled.
- `create_user`, `set_password`'s hashing, the token library's credential check and JWT signing are opaque parameters. The login model only takes their outcome.
- Translated messages (`gettext_lazy`) are not modelled. Only the error code `authorization` is kept.
- Persistence (`save`), transactions and database queries are not modelled. The tables are values that the model reads, and no update is written back to them.
- `src/api/index.ts` (HTTP client) and `src/stores/user.ts` (front-end session store) are not modelled: they are network and UI glue.
- UserRegisterSerializer.ValidatedData: character values, the password included, are passed on untrimmed, so `" pw "` is not shown to reach `create_user` as `"pw"`.
- TokenSerializer.MayLogIn: the leader match is exact character-sequence equality. The backend collation of `filter(leader=...)` is not modelled: neither case folding nor trailing-space padding, under which `"alice"` would match `"Alice"` or `"Alice "`.
- Models.FilterByLeader: the same exact-equality match; database collation is not modelled.
- UserRegisterSerializer.Create: a pure pass-through to `create_user`; its contract is only that call. What `create_user` receives is stated on `UserRegisterSerializer.ValidatedData`.
- `UserRegisterSerializer` has no read path in the source, so none is modelled.
