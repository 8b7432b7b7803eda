/** The translation tables and `getTranslation` of `src/lib/i18n.ts`. */
module I18n {
  import opened JsText

  /** `Language`: `'th'` or `'en'`. */
  datatype Language = Th | En

  /** The keys of the Thai table, `src/lib/i18n.ts` lines 6-280, in order. */
  const ThKeys: seq<string> := [
    "common.loading",
    "common.error",
    "common.success",
    "common.cancel",
    "common.confirm",
    "common.save",
    "common.edit",
    "common.delete",
    "common.search",
    "common.filter",
    "common.sort",
    "common.view",
    "common.create",
    "common.update",
    "common.submit",
    "common.back",
    "common.next",
    "common.previous",
    "common.close",
    "common.open",
    "common.yes",
    "common.no",
    "nav.home",
    "nav.questions",
    "nav.popular",
    "nav.create",
    "nav.profile",
    "nav.admin",
    "nav.login",
    "nav.logout",
    "app.title",
    "app.subtitle",
    "app.description",
    "auth.login.title",
    "auth.login.subtitle",
    "auth.login.userId",
    "auth.login.password",
    "auth.login.forgotPassword",
    "auth.login.submit",
    "auth.login.error",
    "auth.logout.success",
    "auth.reset.title",
    "auth.reset.subtitle",
    "auth.reset.email",
    "auth.reset.submit",
    "auth.reset.success",
    "auth.reset.error",
    "questions.title",
    "questions.create",
    "questions.search.placeholder",
    "questions.filter.category",
    "questions.filter.all",
    "questions.empty",
    "questions.empty.description",
    "questions.views",
    "questions.likes",
    "questions.comments",
    "questions.by",
    "questions.created",
    "questions.create.title",
    "questions.create.form.title",
    "questions.create.form.title.placeholder",
    "questions.create.form.content",
    "questions.create.form.content.placeholder",
    "questions.create.form.categories",
    "questions.create.form.categories.placeholder",
    "questions.create.submit",
    "questions.create.success",
    "question.detail.title",
    "question.detail.like",
    "question.detail.unlike",
    "question.detail.report",
    "question.detail.comments.title",
    "question.detail.comments.empty",
    "question.detail.comments.add",
    "question.detail.comments.placeholder",
    "question.detail.comments.submit",
    "admin.title",
    "admin.dashboard",
    "admin.users",
    "admin.categories",
    "admin.reports",
    "admin.statistics",
    "admin.users.title",
    "admin.users.create",
    "admin.users.total",
    "admin.users.students",
    "admin.users.teachers",
    "admin.users.admins",
    "admin.categories.title",
    "admin.categories.create",
    "admin.categories.name",
    "admin.categories.questions",
    "admin.reports.title",
    "admin.reports.pending",
    "admin.reports.resolved",
    "admin.reports.reason",
    "admin.reports.reporter",
    "admin.reports.resolve",
    "admin.stats.users",
    "admin.stats.questions",
    "admin.stats.comments",
    "admin.stats.reports",
    "role.student",
    "role.teacher",
    "role.admin",
    "error.unauthorized",
    "error.notFound",
    "error.serverError",
    "error.networkError",
    "error.validation",
    "validation.required",
    "validation.email",
    "validation.minLength",
    "validation.maxLength",
    "profile.title",
    "profile.edit",
    "profile.changePassword",
    "profile.userId",
    "profile.email",
    "profile.fullName",
    "profile.joinedDate",
    "profile.currentPassword",
    "profile.newPassword",
    "profile.confirmPassword",
    "profile.stats",
    "profile.myPosts",
    "profile.myComments",
    "profile.myLikes",
    "profile.myReports",
    "profile.noPosts",
    "profile.noComments",
    "profile.noLikes",
    "profile.noReports",
    "profile.createFirstPost",
    "profile.postsCreated",
    "profile.commentsCount",
    "profile.repliedIn",
    "admin.dashboard.title",
    "admin.dashboard.subtitle",
    "admin.dashboard.refresh",
    "admin.dashboard.totalUsers",
    "admin.dashboard.totalQuestions",
    "admin.dashboard.totalComments",
    "admin.dashboard.pendingReports",
    "admin.dashboard.manageUsers",
    "admin.dashboard.manageUsers.desc",
    "admin.dashboard.manageCategories",
    "admin.dashboard.manageCategories.desc",
    "admin.dashboard.manageReports",
    "admin.dashboard.manageReports.desc",
    "admin.dashboard.viewStatistics",
    "admin.dashboard.viewStatistics.desc",
    "admin.dashboard.recentActivity",
    "admin.dashboard.systemStarted",
    "admin.dashboard.adminLoggedIn",
    "admin.dashboard.justNow",
    "admin.dashboard.checkingAuth",
    "admin.dashboard.noAccess",
    "admin.dashboard.noAccessDesc",
    "admin.categories.addNew",
    "admin.categories.allCategories",
    "admin.categories.editCategory",
    "admin.categories.categoryName",
    "admin.categories.categoryNamePlaceholder",
    "admin.categories.deleteConfirm",
    "admin.categories.deleteMessage",
    "admin.categories.deleteSuccess",
    "admin.categories.editSuccess",
    "admin.categories.createSuccess",
    "admin.reports.manageReports",
    "admin.reports.allReports",
    "admin.reports.spam",
    "admin.reports.inappropriate",
    "admin.reports.offensive",
    "admin.reports.misleading",
    "admin.reports.other",
    "admin.reports.reportedBy",
    "admin.reports.hideDelete",
    "admin.reports.reject",
    "admin.reports.confirmResolve",
    "admin.reports.confirmReject",
    "admin.reports.resolveSuccess",
    "admin.reports.rejectSuccess",
    "admin.reports.noReports",
    "admin.reports.noPendingReports",
    "admin.reports.noReportsInCategory",
    "admin.reports.question",
    "admin.reports.comment",
    "admin.statistics.title",
    "admin.statistics.subtitle",
    "popular.title",
    "popular.mostViewed",
    "popular.mostCommented",
    "popular.mostLiked",
    "popular.trending",
    "popular.noPopular",
    "popular.noPopularDesc",
    "home.sortBy",
    "home.latest",
    "home.oldest",
    "home.mostViewed",
    "home.popular",
    "home.found",
    "home.questions",
    "unauthorized.title",
    "unauthorized.message",
    "admin.users.manage",
    "admin.users.description",
    "admin.users.downloadTemplate",
    "admin.users.importUsers",
    "admin.users.addNewUser",
    "admin.users.allUsers",
    "admin.users.userId",
    "admin.users.fullName",
    "admin.users.email",
    "admin.users.role",
    "admin.users.actions",
    "admin.users.editUser",
    "admin.users.deleteUser",
    "admin.users.deleteConfirm",
    "admin.users.deleteMessage",
    "admin.users.password",
    "admin.users.confirmPassword",
    "nav.reports"
  ]

  /** The Thai texts, parallel to `ThKeys`. */
  const ThValues: seq<string> := [
    "กำลังโหลด...",
    "เกิดข้อผิดพลาด",
    "สำเร็จ",
    "ยกเลิก",
    "ยืนยัน",
    "บันทึก",
    "แก้ไข",
    "ลบ",
    "ค้นหา",
    "กรอง",
    "เรียงลำดับ",
    "ดู",
    "สร้าง",
    "อัปเดต",
    "ส่ง",
    "กลับ",
    "ถัดไป",
    "ก่อนหน้า",
    "ปิด",
    "เปิด",
    "ใช่",
    "ไม่",
    "หน้าหลัก",
    "กระทู้คำถาม",
    "ยอดนิยม",
    "สร้างกระทู้",
    "โปรไฟล์",
    "จัดการระบบ",
    "เข้าสู่ระบบ",
    "ออกจากระบบ",
    "PCRU CS CONNECT",
    "เชื่อมต่อและแบ่งปันความรู้ทางวิทยาการคอมพิวเตอร์",
    "แพลตฟอร์มแลกเปลี่ยนความรู้สำหรับนักศึกษาและอาจารย์ สาขาวิชาวิทยาการคอมพิวเตอร์ มหาวิทยาลัยราชภัฏเพชรบูรณ์",
    "เข้าสู่ระบบ",
    "PCRU CS CONNECT มหาวิทยาลัยราชภัฏเพชรบูรณ์",
    "รหัสนักศึกษา/อาจารย์",
    "รหัสผ่าน",
    "ลืมรหัสผ่าน?",
    "เข้าสู่ระบบ",
    "รหัสผ่านหรือรหัสผู้ใช้ไม่ถูกต้อง",
    "ออกจากระบบเรียบร้อยแล้ว",
    "รีเซ็ตรหัสผ่าน",
    "กรอกอีเมลเพื่อรับรหัสผ่านใหม่",
    "อีเมล",
    "ส่งรหัสผ่านใหม่",
    "ส่งรหัสผ่านใหม่ไปยังอีเมลแล้ว",
    "ไม่พบอีเมลในระบบ",
    "กระทู้คำถาม",
    "สร้างกระทู้ใหม่",
    "ค้นหากระทู้...",
    "หมวดหมู่",
    "ทุกหมวดหมู่",
    "ไม่พบกระทู้",
    "ยังไม่มีกระทู้ในระบบ",
    "ครั้ง",
    "ถูกใจ",
    "ความคิดเห็น",
    "โดย",
    "สร้างเมื่อ",
    "สร้างกระทู้ใหม่",
    "หัวข้อกระทู้",
    "กรอกหัวข้อกระทู้...",
    "เนื้อหา",
    "กรอกรายละเอียดคำถาม...",
    "หมวดหมู่",
    "เลือกหมวดหมู่...",
    "สร้างกระทู้",
    "สร้างกระทู้เรียบร้อยแล้ว",
    "รายละเอียดกระทู้",
    "ถูกใจ",
    "เลิกถูกใจ",
    "รายงาน",
    "ความคิดเห็น",
    "ยังไม่มีความคิดเห็น",
    "เพิ่มความคิดเห็น",
    "แสดงความคิดเห็น...",
    "ส่งความคิดเห็น",
    "จัดการระบบ",
    "แดชบอร์ด",
    "จัดการผู้ใช้",
    "จัดการหมวดหมู่",
    "จัดการรายงาน",
    "สถิติ",
    "จัดการผู้ใช้",
    "เพิ่มผู้ใช้ใหม่",
    "ผู้ใช้ทั้งหมด",
    "นักศึกษา",
    "อาจารย์",
    "ผู้ดูแลระบบ",
    "จัดการหมวดหมู่",
    "เพิ่มหมวดหมู่ใหม่",
    "ชื่อหมวดหมู่",
    "จำนวนกระทู้",
    "จัดการรายงาน",
    "รอดำเนินการ",
    "ดำเนินการแล้ว",
    "เหตุผล",
    "ผู้รายงาน",
    "ดำเนินการ",
    "ผู้ใช้ทั้งหมด",
    "กระทู้ทั้งหมด",
    "ความคิดเห็นทั้งหมด",
    "รายงานที่รอดำเนินการ",
    "นักศึกษา",
    "อาจารย์",
    "ผู้ดูแลระบบ",
    "ไม่มีสิทธิ์เข้าถึง",
    "ไม่พบข้อมูล",
    "เกิดข้อผิดพลาดของเซิร์ฟเวอร์",
    "เกิดข้อผิดพลาดของเครือข่าย",
    "ข้อมูลไม่ถูกต้อง",
    "กรุณากรอกข้อมูล",
    "รูปแบบอีเมลไม่ถูกต้อง",
    "ต้องมีอย่างน้อย {min} ตัวอักษร",
    "ต้องมีไม่เกิน {max} ตัวอักษร",
    "โปรไฟล์",
    "แก้ไขข้อมูล",
    "เปลี่ยนรหัสผ่าน",
    "รหัสผู้ใช้",
    "อีเมล",
    "ชื่อ-นามสกุล",
    "วันที่เข้าร่วม",
    "รหัสผ่านปัจจุบัน",
    "รหัสผ่านใหม่",
    "ยืนยันรหัสผ่านใหม่",
    "สถิติการใช้งาน",
    "กระทู้ของฉัน",
    "ความคิดเห็น",
    "การกดถูกใจ",
    "การรายงาน",
    "ยังไม่มีกระทู้",
    "ยังไม่มีความคิดเห็น",
    "ยังไม่มีการกดถูกใจ",
    "ยังไม่มีการรายงาน",
    "สร้างกระทู้แรก",
    "กระทู้ที่สร้าง",
    "ความคิดเห็น",
    "ตอบในกระทู้",
    "แดชบอร์ดผู้ดูแลระบบ",
    "จัดการและควบคุมระบบคลังความรู้ PCRU CS CONNECT",
    "รีเฟรช",
    "ผู้ใช้ทั้งหมด",
    "กระทู้ทั้งหมด",
    "ความคิดเห็น",
    "รายงานรอดำเนินการ",
    "จัดการผู้ใช้",
    "เพิ่ม แก้ไข หรือจัดการบทบาทผู้ใช้งาน",
    "จัดการหมวดหมู่",
    "เพิ่ม แก้ไข หรือลบหมวดหมู่กระทู้",
    "จัดการรายงาน",
    "ตรวจสอบและจัดการเนื้อหาที่ถูกรายงาน",
    "รายงานสถิติ",
    "ดูสถิติและรายงานการใช้งานระบบ",
    "กิจกรรมล่าสุด",
    "ระบบเริ่มทำงานเรียบร้อยแล้ว",
    "Admin เข้าสู่ระบบสำเร็จ",
    "เมื่อสักครู่",
    "กำลังตรวจสอบสิทธิ์...",
    "ไม่มีสิทธิ์เข้าถึง",
    "คุณไม่มีสิทธิ์เข้าถึงหน้านี้",
    "เพิ่มหมวดหมู่ใหม่",
    "รายการหมวดหมู่ทั้งหมด",
    "แก้ไขหมวดหมู่",
    "ชื่อหมวดหมู่",
    "เช่น Programming, Database",
    "ยืนยันการลบหมวดหมู่",
    "คุณแน่ใจหรือไม่ที่จะลบหมวดหมู่ \"{name}\"? หากมีกระทู้ใช้หมวดหมู่นี้อยู่ จะไม่สามารถลบได้",
    "ลบหมวดหมู่สำเร็จ",
    "แก้ไขหมวดหมู่สำเร็จ",
    "เพิ่มหมวดหมู่สำเร็จ",
    "จัดการรายงาน",
    "ทั้งหมด",
    "สแปม",
    "เนื้อหาไม่เหมาะสม",
    "ก้าวร้าว/หยาบคาย",
    "ข้อมูลเท็จ",
    "อื่นๆ",
    "รายงานโดย",
    "ซ่อน/ลบ",
    "ปฏิเสธ",
    "ยืนยันการดำเนินการ? เนื้อหาจะถูกซ่อน/ลบ",
    "ยืนยันการปฏิเสธรายงาน? เนื้อหาจะยังคงอยู่",
    "ดำเนินการสำเร็จ - เนื้อหาถูกซ่อนแล้ว",
    "ปฏิเสธรายงานสำเร็จ - เนื้อหายังคงอยู่",
    "ไม่มีรายงาน",
    "ไม่มีรายงานที่รอดำเนินการ",
    "ไม่มีรายงานในหมวดนี้",
    "กระทู้",
    "ความคิดเห็น",
    "รายงานสถิติ",
    "ดูสถิติและรายงานการใช้งานระบบ",
    "ยอดนิยม",
    "ผู้เข้าชมมากที่สุด",
    "การตอบกลับมากที่สุด",
    "ถูกใจมากที่สุด",
    "กำลังมาแรง",
    "ยังไม่มีกระทู้ยอดนิยม",
    "เริ่มสร้างกระทู้เพื่อแบ่งปันความรู้กันเถอะ!",
    "เรียงตาม",
    "ล่าสุด",
    "เก่าสุด",
    "ยอดดูมากสุด",
    "ยอดนิยม",
    "พบ",
    "กระทู้",
    "ไม่มีสิทธิ์เข้าถึง",
    "คุณไม่มีสิทธิ์เข้าถึงหน้านี้ กรุณาติดต่อผู้ดูแลระบบหากคุณคิดว่านี่เป็นข้อผิดพลาด",
    "จัดการผู้ใช้",
    "เพิ่ม แก้ไข หรือลบผู้ใช้ในระบบ",
    "ดาวน์โหลด Template สำหรับ Import",
    "Import ผู้ใช้ (.xlsx)",
    "เพิ่มผู้ใช้ใหม่",
    "รายชื่อผู้ใช้ทั้งหมด",
    "รหัส",
    "ชื่อ-สกุล",
    "อีเมล",
    "บทบาท",
    "จัดการ",
    "แก้ไขผู้ใช้",
    "ลบผู้ใช้",
    "ยืนยันการลบผู้ใช้",
    "คุณแน่ใจหรือไม่ที่จะลบผู้ใช้ \"{name}\"?",
    "รหัสผ่าน",
    "ยืนยันรหัสผ่าน",
    "รายงาน"
  ]

  /** The keys of the English table, `src/lib/i18n.ts` lines 285-559, in order. */
  const EnKeys: seq<string> := [
    "common.loading",
    "common.error",
    "common.success",
    "common.cancel",
    "common.confirm",
    "common.save",
    "common.edit",
    "common.delete",
    "common.search",
    "common.filter",
    "common.sort",
    "common.view",
    "common.create",
    "common.update",
    "common.submit",
    "common.back",
    "common.next",
    "common.previous",
    "common.close",
    "common.open",
    "common.yes",
    "common.no",
    "nav.home",
    "nav.questions",
    "nav.popular",
    "nav.create",
    "nav.profile",
    "nav.admin",
    "nav.login",
    "nav.logout",
    "app.title",
    "app.subtitle",
    "app.description",
    "auth.login.title",
    "auth.login.subtitle",
    "auth.login.userId",
    "auth.login.password",
    "auth.login.forgotPassword",
    "auth.login.submit",
    "auth.login.error",
    "auth.logout.success",
    "auth.reset.title",
    "auth.reset.subtitle",
    "auth.reset.email",
    "auth.reset.submit",
    "auth.reset.success",
    "auth.reset.error",
    "questions.title",
    "questions.create",
    "questions.search.placeholder",
    "questions.filter.category",
    "questions.filter.all",
    "questions.empty",
    "questions.empty.description",
    "questions.views",
    "questions.likes",
    "questions.comments",
    "questions.by",
    "questions.created",
    "questions.create.title",
    "questions.create.form.title",
    "questions.create.form.title.placeholder",
    "questions.create.form.content",
    "questions.create.form.content.placeholder",
    "questions.create.form.categories",
    "questions.create.form.categories.placeholder",
    "questions.create.submit",
    "questions.create.success",
    "question.detail.title",
    "question.detail.like",
    "question.detail.unlike",
    "question.detail.report",
    "question.detail.comments.title",
    "question.detail.comments.empty",
    "question.detail.comments.add",
    "question.detail.comments.placeholder",
    "question.detail.comments.submit",
    "admin.title",
    "admin.dashboard",
    "admin.users",
    "admin.categories",
    "admin.reports",
    "admin.statistics",
    "admin.users.title",
    "admin.users.create",
    "admin.users.total",
    "admin.users.students",
    "admin.users.teachers",
    "admin.users.admins",
    "admin.categories.title",
    "admin.categories.create",
    "admin.categories.name",
    "admin.categories.questions",
    "admin.reports.title",
    "admin.reports.pending",
    "admin.reports.resolved",
    "admin.reports.reason",
    "admin.reports.reporter",
    "admin.reports.resolve",
    "admin.stats.users",
    "admin.stats.questions",
    "admin.stats.comments",
    "admin.stats.reports",
    "role.student",
    "role.teacher",
    "role.admin",
    "error.unauthorized",
    "error.notFound",
    "error.serverError",
    "error.networkError",
    "error.validation",
    "validation.required",
    "validation.email",
    "validation.minLength",
    "validation.maxLength",
    "profile.title",
    "profile.edit",
    "profile.changePassword",
    "profile.userId",
    "profile.email",
    "profile.fullName",
    "profile.joinedDate",
    "profile.currentPassword",
    "profile.newPassword",
    "profile.confirmPassword",
    "profile.stats",
    "profile.myPosts",
    "profile.myComments",
    "profile.myLikes",
    "profile.myReports",
    "profile.noPosts",
    "profile.noComments",
    "profile.noLikes",
    "profile.noReports",
    "profile.createFirstPost",
    "profile.postsCreated",
    "profile.commentsCount",
    "profile.repliedIn",
    "admin.dashboard.title",
    "admin.dashboard.subtitle",
    "admin.dashboard.refresh",
    "admin.dashboard.totalUsers",
    "admin.dashboard.totalQuestions",
    "admin.dashboard.totalComments",
    "admin.dashboard.pendingReports",
    "admin.dashboard.manageUsers",
    "admin.dashboard.manageUsers.desc",
    "admin.dashboard.manageCategories",
    "admin.dashboard.manageCategories.desc",
    "admin.dashboard.manageReports",
    "admin.dashboard.manageReports.desc",
    "admin.dashboard.viewStatistics",
    "admin.dashboard.viewStatistics.desc",
    "admin.dashboard.recentActivity",
    "admin.dashboard.systemStarted",
    "admin.dashboard.adminLoggedIn",
    "admin.dashboard.justNow",
    "admin.dashboard.checkingAuth",
    "admin.dashboard.noAccess",
    "admin.dashboard.noAccessDesc",
    "admin.categories.addNew",
    "admin.categories.allCategories",
    "admin.categories.editCategory",
    "admin.categories.categoryName",
    "admin.categories.categoryNamePlaceholder",
    "admin.categories.deleteConfirm",
    "admin.categories.deleteMessage",
    "admin.categories.deleteSuccess",
    "admin.categories.editSuccess",
    "admin.categories.createSuccess",
    "admin.reports.manageReports",
    "admin.reports.allReports",
    "admin.reports.spam",
    "admin.reports.inappropriate",
    "admin.reports.offensive",
    "admin.reports.misleading",
    "admin.reports.other",
    "admin.reports.reportedBy",
    "admin.reports.hideDelete",
    "admin.reports.reject",
    "admin.reports.confirmResolve",
    "admin.reports.confirmReject",
    "admin.reports.resolveSuccess",
    "admin.reports.rejectSuccess",
    "admin.reports.noReports",
    "admin.reports.noPendingReports",
    "admin.reports.noReportsInCategory",
    "admin.reports.question",
    "admin.reports.comment",
    "admin.statistics.title",
    "admin.statistics.subtitle",
    "popular.title",
    "popular.mostViewed",
    "popular.mostCommented",
    "popular.mostLiked",
    "popular.trending",
    "popular.noPopular",
    "popular.noPopularDesc",
    "home.sortBy",
    "home.latest",
    "home.oldest",
    "home.mostViewed",
    "home.popular",
    "home.found",
    "home.questions",
    "unauthorized.title",
    "unauthorized.message",
    "admin.users.manage",
    "admin.users.description",
    "admin.users.downloadTemplate",
    "admin.users.importUsers",
    "admin.users.addNewUser",
    "admin.users.allUsers",
    "admin.users.userId",
    "admin.users.fullName",
    "admin.users.email",
    "admin.users.role",
    "admin.users.actions",
    "admin.users.editUser",
    "admin.users.deleteUser",
    "admin.users.deleteConfirm",
    "admin.users.deleteMessage",
    "admin.users.password",
    "admin.users.confirmPassword",
    "nav.reports"
  ]

  /** The English texts, parallel to `EnKeys`. */
  const EnValues: seq<string> := [
    "Loading...",
    "Error",
    "Success",
    "Cancel",
    "Confirm",
    "Save",
    "Edit",
    "Delete",
    "Search",
    "Filter",
    "Sort",
    "View",
    "Create",
    "Update",
    "Submit",
    "Back",
    "Next",
    "Previous",
    "Close",
    "Open",
    "Yes",
    "No",
    "Home",
    "Questions",
    "Popular",
    "Create Question",
    "Profile",
    "Admin",
    "Login",
    "Logout",
    "PCRU CS CONNECT",
    "Connect and Share Computer Science Knowledge",
    "Knowledge sharing platform for students and teachers of Computer Science, Phetchabun Rajabhat University",
    "Login",
    "PCRU CS CONNECT",
    "Student/Teacher ID",
    "Password",
    "Forgot Password?",
    "Login",
    "Invalid credentials",
    "Logged out successfully",
    "Reset Password",
    "Enter your email to receive a new password",
    "Email",
    "Send New Password",
    "New password sent to your email",
    "Email not found",
    "Questions",
    "Create New Question",
    "Search questions...",
    "Category",
    "All Categories",
    "No questions found",
    "No questions in the system yet",
    "views",
    "likes",
    "comments",
    "by",
    "created",
    "Create New Question",
    "Question Title",
    "Enter question title...",
    "Content",
    "Enter question details...",
    "Categories",
    "Select categories...",
    "Create Question",
    "Question created successfully",
    "Question Details",
    "Like",
    "Unlike",
    "Report",
    "Comments",
    "No comments yet",
    "Add Comment",
    "Write a comment...",
    "Post Comment",
    "Administration",
    "Dashboard",
    "User Management",
    "Category Management",
    "Report Management",
    "Statistics",
    "User Management",
    "Add New User",
    "Total Users",
    "Students",
    "Teachers",
    "Administrators",
    "Category Management",
    "Add New Category",
    "Category Name",
    "Questions Count",
    "Report Management",
    "Pending",
    "Resolved",
    "Reason",
    "Reporter",
    "Resolve",
    "Total Users",
    "Total Questions",
    "Total Comments",
    "Pending Reports",
    "Student",
    "Teacher",
    "Administrator",
    "Unauthorized access",
    "Not found",
    "Server error",
    "Network error",
    "Invalid data",
    "This field is required",
    "Invalid email format",
    "Must be at least {min} characters",
    "Must be no more than {max} characters",
    "Profile",
    "Edit Profile",
    "Change Password",
    "User ID",
    "Email",
    "Full Name",
    "Joined Date",
    "Current Password",
    "New Password",
    "Confirm New Password",
    "Usage Statistics",
    "My Posts",
    "Comments",
    "Likes",
    "Reports",
    "No posts yet",
    "No comments yet",
    "No likes yet",
    "No reports yet",
    "Create First Post",
    "Posts Created",
    "Comments",
    "Replied in",
    "Admin Dashboard",
    "Manage and control PCRU CS CONNECT knowledge base system",
    "Refresh",
    "Total Users",
    "Total Questions",
    "Comments",
    "Pending Reports",
    "User Management",
    "Add, edit, or manage user roles",
    "Category Management",
    "Add, edit, or delete question categories",
    "Report Management",
    "Review and manage reported content",
    "Statistics Report",
    "View system usage statistics and reports",
    "Recent Activity",
    "System started successfully",
    "Admin logged in successfully",
    "Just now",
    "Checking authorization...",
    "Access Denied",
    "You do not have permission to access this page",
    "Add New Category",
    "All Categories",
    "Edit Category",
    "Category Name",
    "e.g. Programming, Database",
    "Confirm Category Deletion",
    "Are you sure you want to delete category \"{name}\"? If there are questions using this category, it cannot be deleted",
    "Category deleted successfully",
    "Category updated successfully",
    "Category created successfully",
    "Report Management",
    "All",
    "Spam",
    "Inappropriate Content",
    "Offensive/Abusive",
    "Misleading Information",
    "Other",
    "Reported by",
    "Hide/Delete",
    "Reject",
    "Confirm action? Content will be hidden/deleted",
    "Confirm rejection? Content will remain",
    "Action completed - Content hidden",
    "Report rejected - Content remains",
    "No reports",
    "No pending reports",
    "No reports in this category",
    "Question",
    "Comment",
    "Statistics Report",
    "View system usage statistics and reports",
    "Popular",
    "Most Viewed",
    "Most Commented",
    "Most Liked",
    "Trending",
    "No popular questions yet",
    "Start creating questions to share knowledge!",
    "Sort by",
    "Latest",
    "Oldest",
    "Most Viewed",
    "Popular",
    "Found",
    "questions",
    "Access Denied",
    "You do not have permission to access this page. Please contact the administrator if you believe this is an error",
    "User Management",
    "Add, edit, or delete users in the system",
    "Download Import Template",
    "Import Users (.xlsx)",
    "Add New User",
    "All Users",
    "ID",
    "Full Name",
    "Email",
    "Role",
    "Actions",
    "Edit User",
    "Delete User",
    "Confirm User Deletion",
    "Are you sure you want to delete user \"{name}\"?",
    "Password",
    "Confirm Password",
    "Reports"
  ]

  /** One language's table: its keys and, at the same positions, their texts. */
  datatype Table = Table(keys: seq<string>, values: seq<string>)

  predicate WellFormed(t: Table) { |t.keys| == |t.values| }

  /** `translations`: the table of each language. */
  datatype Translations = Translations(th: Table, en: Table)

  /** `translations[language]`. */
  function TableOf(ts: Translations, lang: Language): Table
  {
    match lang
    case Th => ts.th
    case En => ts.en
  }

  /** The module's `translations` object. */
  const AppTranslations: Translations := Translations(Table(ThKeys, ThValues), Table(EnKeys, EnValues))

  /** Every Thai text has its key. */
  lemma ThaiTableWellFormed()
    ensures |ThKeys| == |ThValues| == 225
  {
  }

  /** Every English text has its key. */
  lemma EnglishTableWellFormed()
    ensures |EnKeys| == |EnValues| == 225
  {
  }

  /** Both tables define the same keys, in the same order. */
  lemma SameKeys()
    ensures ThKeys == EnKeys
  {
  }

  /** The last index of `x` in `s`, or -1: in an object literal a later entry for the same
      key overrides an earlier one. */
  function LastIndexOf<T(==)>(s: seq<T>, x: T): (k: int)
    ensures -1 <= k < |s|
    ensures k == -1 <==> x !in s
    ensures k >= 0 ==> s[k] == x && x !in s[k + 1..]
  {
    if s == [] then -1
    else if s[|s| - 1] == x then |s| - 1
    else
      assert s[..|s| - 1][|s| - 1..] == [];
      var k := LastIndexOf(s[..|s| - 1], x);
      if k >= 0 then
        assert s[k + 1..] == s[..|s| - 1][k + 1..] + [s[|s| - 1]];
        k
      else k
  }

  /** `table[key] || key`: the text, or the key itself when the key is unknown or its text
      is empty. */
  function Lookup(t: Table, key: string): (r: string)
    requires WellFormed(t)
    ensures key !in t.keys ==> r == key
    ensures key in t.keys ==>
      var k := LastIndexOf(t.keys, key);
      r == if t.values[k] == [] then key else t.values[k]
  {
    var k := LastIndexOf(t.keys, key);
    if k == -1 then key
    else if t.values[k] == [] then key
    else t.values[k]
  }

  /** With tables that share their keys, a key neither knows comes back unchanged in both
      languages. */
  lemma UnknownKeyIsKept(ts: Translations, key: string)
    requires WellFormed(ts.th) && WellFormed(ts.en) && ts.th.keys == ts.en.keys
    requires key !in ts.th.keys
    ensures Lookup(TableOf(ts, Th), key) == key && Lookup(TableOf(ts, En), key) == key
  {
  }

  /** A parameter value: a string, or a number written out by `String(value)`. */
  datatype ParamValue = Str(s: string) | Num(n: int)

  function Render(v: ParamValue): string
  {
    match v
    case Str(s) => s
    case Num(n) => IntToString(n)
  }

  /** `pat` occurs in `s` at index `i`. */
  predicate OccursAt(s: string, pat: string, i: int)
  {
    0 <= i && i + |pat| <= |s| && s[i..i + |pat|] == pat
  }

  /** The first index at or after `from` where `pat` occurs in `s`, or -1. */
  function FindFrom(s: string, pat: string, from: nat): (i: int)
    ensures i == -1 || (from <= i && OccursAt(s, pat, i))
    ensures forall j :: from <= j && (i == -1 || j < i) ==> !OccursAt(s, pat, j)
    decreases |s| - from
  {
    if from + |pat| > |s| then -1
    else if s[from..from + |pat|] == pat then from
    else FindFrom(s, pat, from + 1)
  }

  /** `s.replace(pat, rep)` for a string pattern. */
  function ReplaceFirst(s: string, pat: string, rep: string): string
  {
    var i := FindFrom(s, pat, 0);
    if i == -1 then s else s[..i] + rep + s[i + |pat|..]
  }

  /** The replacement happens at the first occurrence, and there only. */
  lemma ReplacesFirstOccurrence(s: string, pat: string, rep: string, i: nat)
    requires OccursAt(s, pat, i) && (forall j :: 0 <= j < i ==> !OccursAt(s, pat, j))
    ensures ReplaceFirst(s, pat, rep) == s[..i] + rep + s[i + |pat|..]
  {
    var k := FindFrom(s, pat, 0);
    assert k != -1 ==> !(k < i) && !(i < k);
  }

  /** A text without the pattern is returned unchanged. */
  lemma ReplaceWithoutOccurrence(s: string, pat: string, rep: string)
    requires forall j :: !OccursAt(s, pat, j)
    ensures ReplaceFirst(s, pat, rep) == s
  {
    var k := FindFrom(s, pat, 0);
    assert k == -1 || OccursAt(s, pat, k);
  }

  /** Only the first occurrence is replaced: a later occurrence that does not overlap it is
      still there afterwards, shifted by the change in length. */
  lemma SecondOccurrenceSurvives(s: string, pat: string, rep: string, i: nat, j: nat)
    requires OccursAt(s, pat, i) && (forall m :: 0 <= m < i ==> !OccursAt(s, pat, m))
    requires i + |pat| <= j && OccursAt(s, pat, j)
    ensures OccursAt(ReplaceFirst(s, pat, rep), pat, j - |pat| + |rep|)
  {
    ReplacesFirstOccurrence(s, pat, rep, i);
    var r := ReplaceFirst(s, pat, rep);
    assert r == s[..i] + rep + s[i + |pat|..];
    var j' := j - |pat| + |rep|;
    assert r[j'..j' + |pat|] == s[j..j + |pat|];
  }

  /** `{name}`. */
  function Placeholder(name: string): string
  {
    "{" + name + "}"
  }

  /** The parameters applied one after the other, in order, each to the text the previous
      one left. */
  function SubstituteAll(t: string, params: seq<(string, ParamValue)>): string
    decreases |params|
  {
    if params == [] then t
    else SubstituteAll(ReplaceFirst(t, Placeholder(params[0].0), Render(params[0].1)), params[1..])
  }

  /** Applying one more parameter replaces its placeholder in what the others produced. */
  lemma {:induction false} SubstituteAllSnoc(t: string, params: seq<(string, ParamValue)>, p: (string, ParamValue))
    ensures SubstituteAll(t, params + [p]) ==
      ReplaceFirst(SubstituteAll(t, params), Placeholder(p.0), Render(p.1))
    decreases |params|
  {
    if params != [] {
      assert (params + [p])[1..] == params[1..] + [p];
      SubstituteAllSnoc(ReplaceFirst(t, Placeholder(params[0].0), Render(params[0].1)), params[1..], p);
    }
  }

  /** A parameter whose placeholder is nowhere in the text leaves the text as it is. */
  lemma AbsentPlaceholder(t: string, name: string, v: ParamValue)
    requires forall j :: !OccursAt(t, Placeholder(name), j)
    ensures SubstituteAll(t, [(name, v)]) == t
  {
    ReplaceWithoutOccurrence(t, Placeholder(name), Render(v));
  }

  /** `getTranslation(key, language, params)` over the tables `ts`, which the application
      fixes to `AppTranslations`; `None` is a call without `params`. */
  method GetTranslation(ts: Translations, key: string, lang: Language,
                        params: Option<seq<(string, ParamValue)>>) returns (translation: string)
    requires WellFormed(TableOf(ts, lang))
    ensures params.None? ==> translation == Lookup(TableOf(ts, lang), key)
    ensures params.Some? ==> translation == SubstituteAll(Lookup(TableOf(ts, lang), key), params.value)
  {
    var base := Lookup(TableOf(ts, lang), key);
    translation := base;
    if params.Some? {
      var ps := params.value;
      var i := 0;
      while i < |ps|
        invariant 0 <= i <= |ps|
        invariant translation == SubstituteAll(base, ps[..i])
      {
        SubstituteAllSnoc(base, ps[..i], ps[i]);
        assert ps[..i + 1] == ps[..i] + [ps[i]];
        var (name, value) := ps[i];
        translation := ReplaceFirst(translation, Placeholder(name), Render(value));
        i := i + 1;
      }
      assert ps[..|ps|] == ps;
    }
  }
}
