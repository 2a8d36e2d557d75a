# Syncano.Net enum string codecs

A Dafny model of the two string codecs for enums in the Syncano .NET client:

- `DataObjectState` (`Pending`, `Moderated`, `Rejected`, `All`) and its JSON
  converter, which reads a state from a JSON string (`ReadJson`) and writes a
  state as a JSON string (`WriteJson`);
- `ApiKeyPermission` (`SendNotification`, `AddUser`, `AccessSync`, `Subscribe`)
  and `ApiKeyPermissionByStringConverter.GetString`, which gives the wire token
  of a permission.

An enum declared without a base type, as both of these are
(src/Syncano.Net/Data/DataObjectState.cs:9, src/Syncano.Net/Access/ApiKeyPermission.cs:6),
is an `Int32`, and a variable of the enum type can hold values
that are not declared members. Both enums are therefore modelled as newtypes
over the `Int32` range. The declared members are constants at their
declaration-order values: `Pending = 0 … All = 3` and
`SendNotification = 0, AddUser = 1, AccessSync = 2, Subscribe = 3`. The
converters' `default` arms then have real inputs to act on.

The JSON reader and writer are not modelled. `Read` takes the string the
reader holds; `Option<string>` stands for it, with `None` for a null value.
`Write` returns the string that `WriteJson` hands to `writer.WriteValue`.

Files:

- `wrappers.dfy`: `Option` (a nullable reference) and the `Int32` bounds.
- `data_object_state.dfy`: module `DataObjectStates`.
- `api_key_permission.dfy`: module `ApiKeyPermissions`.

## Model

| member | source | states |
|---|---|---|
| `DataObjectStates.Read` | src/Syncano.Net/Data/DataObjectState.cs:42-64 | Reading is total and never fails. Its result is always one of the four declared states. |
| `DataObjectStates.ReadExact` | src/Syncano.Net/Data/DataObjectState.cs:47-61 | Pending, Moderated and Rejected are read from exactly "Pending", "Moderated" and "Rejected". Every other string, "All" and null included, reads as All. Both directions are stated. |
| `DataObjectStates.ReadIsCaseSensitive` | src/Syncano.Net/Data/DataObjectState.cs:47-61 | Any string that differs from "Pending", "Moderated" or "Rejected" only in the ASCII case of its letters reads as All. |
| `DataObjectStates.Write` | src/Syncano.Net/Data/DataObjectState.cs:66-85 | The written string is always one of the four state names. |
| `DataObjectStates.WriteExact` | src/Syncano.Net/Data/DataObjectState.cs:70-84 | Each of Pending, Moderated and Rejected is written as its own name, and only that state is. "All" is written for All and for every undeclared value. |
| `DataObjectStates.ReadWriteRoundTrip` | src/Syncano.Net/Data/DataObjectState.cs:47-84 | Writing and then reading gives back every declared state. Any undeclared value comes back as All. |
| `DataObjectStates.WriteReadRoundTrip` | src/Syncano.Net/Data/DataObjectState.cs:47-84 | Reading and then writing gives back the same string exactly when it is one of the four names. Any other string, and null, comes back as "All". |
| `DataObjectStates.WriteReadIdempotent` | src/Syncano.Net/Data/DataObjectState.cs:47-84 | Reading and then writing is idempotent: doing it twice equals doing it once. |
| `DataObjectStates.WriteRange` | src/Syncano.Net/Data/DataObjectState.cs:70-84 | A string is one of the four names exactly when some declared state is written as it. |
| `ApiKeyPermissions.GetString` | src/Syncano.Net/Access/ApiKeyPermission.cs:31-58 | The token is non-empty exactly when the permission is declared. A non-empty token is one of the four wire tokens and uses only lower-case letters and `_`. |
| `ApiKeyPermissions.GetStringExact` | src/Syncano.Net/Access/ApiKeyPermission.cs:34-55 | AccessSync gives "access_sync", AddUser "add_user", SendNotification "send_notification" and Subscribe "subscribe", each in both directions. "" is returned exactly for undeclared values. |
| `ApiKeyPermissions.PermissionOf` | src/Syncano.Net/Access/ApiKeyPermission.cs:34-50 | The token table read backwards: it is defined exactly on the four wire tokens, and only to declared permissions. |
| `ApiKeyPermissions.PermissionOfGetString` | src/Syncano.Net/Access/ApiKeyPermission.cs:34-57 | Reading a declared permission's token back gives that permission. An undeclared value's token ("") gives nothing back. |
| `ApiKeyPermissions.GetStringPermissionOf` | src/Syncano.Net/Access/ApiKeyPermission.cs:34-50 | Each wire token is the `GetString` of the permission it reads back as. |
| `ApiKeyPermissions.GetStringInjective` | src/Syncano.Net/Access/ApiKeyPermission.cs:34-55 | Two permissions with the same non-empty token are equal. |
| `ApiKeyPermissions.GetStringRange` | src/Syncano.Net/Access/ApiKeyPermission.cs:34-55 | A string is a token of a declared permission exactly when it is one of the four wire tokens. |

## Left out

- `DataObjectStateEnumConverter.CanConvert` (src/Syncano.Net/Data/DataObjectState.cs:37-40) is left out. It is a reflection test on `System.Type`, with no logic on values.
- The Newtonsoft `JsonReader`, `JsonWriter` and `JsonSerializer` objects are left out. `Read` starts from the reader's value and `Write` ends at the string passed to `WriteValue`.
- The cast `(string)reader.Value` is left out. It throws `InvalidCastException` when the JSON token's value is not a string. `Read` starts from a string or null.
- The cast `(DataObjectState)value` is left out. It throws `InvalidCastException` for a boxed value whose type is neither `Int32` nor an enum over `Int32`, and `NullReferenceException` for null. Every other value unboxes to its 32-bit value, which the model's range covers.
- The default of `UserQueryRequest.State` to `All` (src/Syncano.Net/UserQueryRequest.cs:10) is left out. That DTO has no other behaviour.
- `Read` takes a Dafny `string`, a sequence of Unicode scalar values. A C# string is a sequence of UTF-16 code units and may hold an unpaired surrogate, which the model's domain excludes. The source sends such a string to its `default` arm, giving All, so no mapped behaviour is lost.
- The real-time subscription and notification machinery (`SyncServer` and its notification types) is outside this model.
