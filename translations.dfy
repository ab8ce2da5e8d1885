/**
 * The translation tables of app.py:75-250: English and Spanish text for each
 * French message, and an empty French table (the French text is the
 * original). Each table is written as the union of three parts, in the
 * order of the source, so that the verifier can look entries up.
 */
module Translations {
  import opened Wrappers

  const English1: map<string, string> := map[
    "Accueil" := "Home",
    "Produits" := "Products",
    "Panier" := "Cart",
    "Admin" := "Admin",
    "Connexion" := "Login",
    "Inscription" := "Register",
    "Déconnexion" := "Logout",
    "Mon Profil" := "My Profile",
    "Mes Commandes" := "My Orders",
    "Bienvenue chez Velours Parfum" := "Welcome to Velours Parfum",
    "Découvrez notre collection exclusive de parfums de luxe et laissez-vous envoûter par des fragrances veloutées d'exception" := "Discover our exclusive collection of luxury perfumes and let yourself be enchanted by exceptional velvety fragrances",
    "Découvrir nos produits" := "Discover our products",
    "Explorer" := "Explore",
    "Produits en vedette" := "Featured Products",
    "Nos Catégories" := "Our Categories",
    "Votre destination pour les parfums de luxe" := "Your destination for luxury perfumes",
    "Tous droits réservés." := "All rights reserved.",
    "Dashboard" := "Dashboard",
    "Admin Panel" := "Admin Panel",
    "Voir le site" := "View site",
    "Commandes" := "Orders",
    "Utilisateurs" := "Users",
    "Catégories" := "Categories",
    "Total Produits" := "Total Products",
    "Total Commandes" := "Total Orders",
    "Total Utilisateurs" := "Total Users",
    "Commandes en attente" := "Pending Orders",
    "Commandes récentes" := "Recent Orders"
  ]

  const English2: map<string, string> := map[
    "Actions rapides" := "Quick Actions",
    "Informations système" := "System Information",
    "Ajouter un produit" := "Add Product",
    "Ajouter une catégorie" := "Add Category",
    "Voir les commandes en attente" := "View Pending Orders",
    "Version" := "Version",
    "Dernière mise à jour" := "Last Update",
    "Statut" := "Status",
    "Opérationnel" := "Operational",
    "Gestion des produits" := "Product Management",
    "Gestion des utilisateurs" := "User Management",
    "Supprimer tous les produits" := "Delete All Products",
    "Filtrer" := "Filter",
    "Tous les utilisateurs" := "All Users",
    "Administrateurs" := "Administrators",
    "Utilisateurs réguliers" := "Regular Users",
    "Nom d'utilisateur" := "Username",
    "Email" := "Email",
    "Type" := "Type",
    "Date d'inscription" := "Registration Date",
    "Total dépensé" := "Total Spent",
    "Actions" := "Actions",
    "Administrateur" := "Administrator",
    "Utilisateur" := "User",
    "commande(s)" := "order(s)",
    "Voir détails" := "View Details",
    "Retirer admin" := "Remove Admin",
    "Promouvoir admin" := "Promote Admin"
  ]

  const English3: map<string, string> := map[
    "Supprimer" := "Delete",
    "Retour à la liste" := "Back to List",
    "Imprimer" := "Print",
    "Articles commandés" := "Ordered Items",
    "Produit" := "Product",
    "Prix unitaire" := "Unit Price",
    "Quantité" := "Quantity",
    "Total" := "Total",
    "Exporter" := "Export",
    "Aucune commande récente" := "No recent orders",
    "En attente" := "Pending",
    "Confirmée" := "Confirmed",
    "Expédiée" := "Shipped",
    "Livrée" := "Delivered",
    "Annulée" := "Cancelled",
    "Voir toutes les commandes" := "View All Orders",
    "Client" := "Customer",
    "Date" := "Date",
    "Accès non autorisé" := "Unauthorized access",
    "Vous ne pouvez pas modifier vos propres droits administrateur." := "You cannot modify your own administrator rights.",
    "Vous ne pouvez pas supprimer votre propre compte." := "You cannot delete your own account.",
    "promu administrateur" := "promoted to administrator",
    "retiré des administrateurs" := "removed from administrators",
    "L'utilisateur {username} a été {action} avec succès !" := "User {username} has been {action} successfully!",
    "Erreur lors de la modification : {error}" := "Error during modification: {error}",
    "Utilisateur supprimé avec succès" := "User deleted successfully",
    "Erreur lors de la suppression : {error}" := "Error during deletion: {error}"
  ]

  /** The 'en' table. */
  const English: map<string, string> := English1 + English2 + English3

  const Spanish1: map<string, string> := map[
    "Accueil" := "Inicio",
    "Produits" := "Productos",
    "Panier" := "Carrito",
    "Admin" := "Admin",
    "Connexion" := "Iniciar sesión",
    "Inscription" := "Registrarse",
    "Déconnexion" := "Cerrar sesión",
    "Mon Profil" := "Mi Perfil",
    "Mes Commandes" := "Mis Pedidos",
    "Bienvenue chez Velours Parfum" := "Bienvenido a Velours Parfum",
    "Découvrez notre collection exclusive de parfums de luxe et laissez-vous envoûter par des fragrances veloutées d'exception" := "Descubre nuestra colección exclusiva de perfumes de lujo y déjate encantar por fragancias aterciopeladas excepcionales",
    "Découvrir nos produits" := "Descubrir nuestros productos",
    "Explorer" := "Explorar",
    "Produits en vedette" := "Productos destacados",
    "Nos Catégories" := "Nuestras Categorías",
    "Votre destination pour les parfums de luxe" := "Tu destino para perfumes de lujo",
    "Tous droits réservés." := "Todos los derechos reservados.",
    "Dashboard" := "Panel de Control",
    "Admin Panel" := "Panel de Administración",
    "Voir le site" := "Ver sitio",
    "Commandes" := "Pedidos",
    "Utilisateurs" := "Usuarios",
    "Catégories" := "Categorías",
    "Total Produits" := "Total Productos",
    "Total Commandes" := "Total Pedidos",
    "Total Utilisateurs" := "Total Usuarios",
    "Commandes en attente" := "Pedidos Pendientes",
    "Commandes récentes" := "Pedidos Recientes"
  ]

  const Spanish2: map<string, string> := map[
    "Actions rapides" := "Acciones Rápidas",
    "Informations système" := "Información del Sistema",
    "Ajouter un produit" := "Añadir Producto",
    "Ajouter une catégorie" := "Añadir Categoría",
    "Voir les commandes en attente" := "Ver Pedidos Pendientes",
    "Version" := "Versión",
    "Dernière mise à jour" := "Última Actualización",
    "Statut" := "Estado",
    "Opérationnel" := "Operacional",
    "Gestion des produits" := "Gestión de Productos",
    "Gestion des utilisateurs" := "Gestión de Usuarios",
    "Supprimer tous les produits" := "Eliminar Todos los Productos",
    "Filtrer" := "Filtrar",
    "Tous les utilisateurs" := "Todos los Usuarios",
    "Administrateurs" := "Administradores",
    "Utilisateurs réguliers" := "Usuarios Regulares",
    "Nom d'utilisateur" := "Nombre de Usuario",
    "Email" := "Email",
    "Type" := "Tipo",
    "Date d'inscription" := "Fecha de Registro",
    "Total dépensé" := "Total Gastado",
    "Actions" := "Acciones",
    "Administrateur" := "Administrador",
    "Utilisateur" := "Usuario",
    "commande(s)" := "pedido(s)",
    "Voir détails" := "Ver Detalles",
    "Retirer admin" := "Quitar Admin",
    "Promouvoir admin" := "Promover Admin"
  ]

  const Spanish3: map<string, string> := map[
    "Supprimer" := "Eliminar",
    "Retour à la liste" := "Volver a la Lista",
    "Imprimer" := "Imprimir",
    "Articles commandés" := "Artículos Pedidos",
    "Produit" := "Producto",
    "Prix unitaire" := "Precio Unitario",
    "Quantité" := "Cantidad",
    "Total" := "Total",
    "Exporter" := "Exportar",
    "Aucune commande récente" := "No hay pedidos recientes",
    "En attente" := "Pendiente",
    "Confirmée" := "Confirmado",
    "Expédiée" := "Enviado",
    "Livrée" := "Entregado",
    "Annulée" := "Cancelado",
    "Voir toutes les commandes" := "Ver Todos los Pedidos",
    "Client" := "Cliente",
    "Date" := "Fecha",
    "Accès non autorisé" := "Acceso no autorizado",
    "Vous ne pouvez pas modifier vos propres droits administrateur." := "No puedes modificar tus propios derechos de administrador.",
    "Vous ne pouvez pas supprimer votre propre compte." := "No puedes eliminar tu propia cuenta.",
    "promu administrateur" := "promovido a administrador",
    "retiré des administrateurs" := "retirado de administradores",
    "L'utilisateur {username} a été {action} avec succès !" := "¡El usuario {username} ha sido {action} con éxito!",
    "Erreur lors de la modification : {error}" := "Error durante la modificación: {error}",
    "Utilisateur supprimé avec succès" := "Usuario eliminado con éxito",
    "Erreur lors de la suppression : {error}" := "Error durante la eliminación: {error}"
  ]

  /** The 'es' table. */
  const Spanish: map<string, string> := Spanish1 + Spanish2 + Spanish3

  /** The 'fr' table. */
  const French: map<string, string> := map[]

  /** TRANSLATIONS: the table of a locale code, if it has one. */
  function Table(locale: string): Option<map<string, string>> {
    if locale == "en" then Some(English)
    else if locale == "es" then Some(Spanish)
    else if locale == "fr" then Some(French)
    else None
  }

  /** English and Spanish translate the same French texts: no message has one translation without the other. */
  lemma SameTexts()
    ensures English.Keys == Spanish.Keys
  {
    SamePart1();
    SamePart2();
    SamePart3();
  }

  lemma SamePart1()
    ensures English1.Keys == Spanish1.Keys
  {
  }

  lemma SamePart2()
    ensures English2.Keys == Spanish2.Keys
  {
  }

  lemma SamePart3()
    ensures English3.Keys == Spanish3.Keys
  {
  }
}
